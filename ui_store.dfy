/** The global UI store: whether each sidebar is open and which modal, if
    any, is showing. */
module UIStore {
  import opened Wrappers

  datatype UIState = UIState(leftSidebarOpen: bool, rightSidebarOpen: bool, activeModal: Option<string>)

  /** Both sidebars open, no modal. */
  const InitialState := UIState(true, true, None)

  class UI {
    var leftSidebarOpen: bool
    var rightSidebarOpen: bool
    var activeModal: Option<string>

    function State(): UIState
      reads this
    {
      UIState(leftSidebarOpen, rightSidebarOpen, activeModal)
    }

    constructor()
      ensures State() == InitialState
    {
      leftSidebarOpen, rightSidebarOpen, activeModal := true, true, None;
    }

    method ToggleLeftSidebar()
      modifies this
      ensures State() == ToggledLeft(old(State()))
    {
      leftSidebarOpen := !leftSidebarOpen;
    }

    method ToggleRightSidebar()
      modifies this
      ensures State() == ToggledRight(old(State()))
    {
      rightSidebarOpen := !rightSidebarOpen;
    }

    method SetLeftSidebar(open: bool)
      modifies this
      ensures State() == old(State()).(leftSidebarOpen := open)
    {
      leftSidebarOpen := open;
    }

    method SetRightSidebar(open: bool)
      modifies this
      ensures State() == old(State()).(rightSidebarOpen := open)
    {
      rightSidebarOpen := open;
    }

    method OpenModal(modalId: string)
      modifies this
      ensures State() == old(State()).(activeModal := Some(modalId))
    {
      activeModal := Some(modalId);
    }

    method CloseModal()
      modifies this
      ensures State() == old(State()).(activeModal := None)
    {
      activeModal := None;
    }
  }

  /** toggleLeftSidebar as a step on the state. */
  function ToggledLeft(s: UIState): (r: UIState)
    ensures r.leftSidebarOpen != s.leftSidebarOpen
    ensures r.rightSidebarOpen == s.rightSidebarOpen && r.activeModal == s.activeModal
  {
    s.(leftSidebarOpen := !s.leftSidebarOpen)
  }

  /** toggleRightSidebar as a step on the state. */
  function ToggledRight(s: UIState): (r: UIState)
    ensures r.rightSidebarOpen != s.rightSidebarOpen
    ensures r.leftSidebarOpen == s.leftSidebarOpen && r.activeModal == s.activeModal
  {
    s.(rightSidebarOpen := !s.rightSidebarOpen)
  }

  /** Toggling a sidebar twice restores the state, and the two toggles
      commute. */
  lemma TogglesUndoAndCommute(s: UIState)
    ensures ToggledLeft(ToggledLeft(s)) == s
    ensures ToggledRight(ToggledRight(s)) == s
    ensures ToggledLeft(ToggledRight(s)) == ToggledRight(ToggledLeft(s))
  {
  }
}
