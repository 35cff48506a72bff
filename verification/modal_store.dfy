/**
 * The create-vault modal's store: whether the modal is open, the extras it
 * was opened with, and the active sidebar tab. Every transition is a
 * shallow merge of a partial state into the current one, as the store
 * library's `set` performs it.
 */
module ModalStore {
  import opened Wrappers
  import Js

  /** `SidebarTabType`. */
  datatype Tab = Documents | Casual | Mindspace

  /** The store's data fields. */
  datatype ModalState = ModalState(isOpen: bool, extras: Js.Value, activeTab: Tab)

  /** `defaultModalValues`: closed, no extras (`{}`), on the `casual` tab. */
  const Initial: ModalState := ModalState(false, Js.Obj(map[]), Casual)

  /** The argument of `set`: the fields to overwrite. */
  datatype Patch = Patch(isOpen: Option<bool>, extras: Option<Js.Value>, activeTab: Option<Tab>)

  /** `set(patch)`: the fields the patch names take its values, the others keep theirs. */
  function Merge(s: ModalState, p: Patch): (r: ModalState)
    ensures p.isOpen.Some? ==> r.isOpen == p.isOpen.value
    ensures p.isOpen.None? ==> r.isOpen == s.isOpen
    ensures p.extras.Some? ==> r.extras == p.extras.value
    ensures p.extras.None? ==> r.extras == s.extras
    ensures p.activeTab.Some? ==> r.activeTab == p.activeTab.value
    ensures p.activeTab.None? ==> r.activeTab == s.activeTab
  {
    ModalState(p.isOpen.GetOr(s.isOpen), p.extras.GetOr(s.extras), p.activeTab.GetOr(s.activeTab))
  }

  /** An empty patch changes nothing. */
  lemma MergeNothing(s: ModalState)
    ensures Merge(s, Patch(None, None, None)) == s
  {
  }

  /** `onOpen(extras)`: `set({ isOpen: true, extras })`. */
  function Opened(s: ModalState, extras: Js.Value): ModalState {
    Merge(s, Patch(Some(true), Some(extras), None))
  }

  /** `onClose()`: `set({ isOpen: false, extras: {} })`. */
  function Closed(s: ModalState): ModalState {
    Merge(s, Patch(Some(false), Some(Js.Obj(map[])), None))
  }

  /** `toggle()`: `set(state => ({ isOpen: !state.isOpen }))`. */
  function Toggled(s: ModalState): ModalState {
    Merge(s, Patch(Some(!s.isOpen), None, None))
  }

  /** `setActiveTab(tab)`: `set({ activeTab: tab })`. */
  function TabSet(s: ModalState, tab: Tab): ModalState {
    Merge(s, Patch(None, None, Some(tab)))
  }

  /** Opening shows the modal with the given extras and keeps the tab. */
  lemma OpenedKeepsTab(s: ModalState, extras: Js.Value)
    ensures Opened(s, extras).isOpen && Opened(s, extras).extras == extras
    ensures Opened(s, extras).activeTab == s.activeTab
  {
  }

  /** Closing hides the modal, drops the extras, keeps the tab, and closing again changes nothing. */
  lemma ClosedIdempotent(s: ModalState)
    ensures !Closed(s).isOpen && Closed(s).extras == Js.Obj(map[]) && Closed(s).activeTab == s.activeTab
    ensures Closed(Closed(s)) == Closed(s)
  {
  }

  /** Toggling flips only `isOpen`, so toggling twice restores the state. */
  lemma ToggleTwice(s: ModalState)
    ensures Toggled(s).isOpen == !s.isOpen
    ensures Toggled(s).extras == s.extras && Toggled(s).activeTab == s.activeTab
    ensures Toggled(Toggled(s)) == s
  {
  }

  /** Setting the tab changes only the tab. */
  lemma TabSetOnlyTab(s: ModalState, tab: Tab)
    ensures TabSet(s, tab) == s.(activeTab := tab)
  {
  }

  /** Closing after opening is the same as closing, whatever the extras were. */
  lemma CloseForgetsOpen(s: ModalState, extras: Js.Value)
    ensures Closed(Opened(s, extras)) == Closed(s)
  {
  }

  /** The store (`useCreateVaultModal`): its fields, overwritten in place by each action. */
  class Modal {
    var isOpen: bool
    var extras: Js.Value
    var activeTab: Tab

    /** The data fields as one value. */
    function State(): ModalState
      reads this
    {
      ModalState(isOpen, extras, activeTab)
    }

    constructor ()
      ensures State() == Initial
    {
      isOpen := false;
      extras := Js.Obj(map[]);
      activeTab := Casual;
    }

    /** `set(patch)`. */
    method Set(p: Patch)
      modifies this
      ensures State() == Merge(old(State()), p)
    {
      if p.isOpen.Some? {
        isOpen := p.isOpen.value;
      }
      if p.extras.Some? {
        extras := p.extras.value;
      }
      if p.activeTab.Some? {
        activeTab := p.activeTab.value;
      }
    }

    method OnOpen(x: Js.Value)
      modifies this
      ensures State() == Opened(old(State()), x)
    {
      Set(Patch(Some(true), Some(x), None));
    }

    method OnClose()
      modifies this
      ensures State() == Closed(old(State()))
    {
      Set(Patch(Some(false), Some(Js.Obj(map[])), None));
    }

    method Toggle()
      modifies this
      ensures State() == Toggled(old(State()))
    {
      Set(Patch(Some(!isOpen), None, None));
    }

    method SetActiveTab(tab: Tab)
      modifies this
      ensures State() == TabSet(old(State()), tab)
    {
      Set(Patch(None, None, Some(tab)));
    }
  }
}
