/**
 * The create-project dialog's state, kept in two boolean URL query
 * parameters: `create-project` (the dialog is open) and `use-ai` (the
 * dialog shows the AI form). Both default to false, and a parameter at
 * its default is removed from the URL.
 *
 * Reading and writing the URL itself is left to the router; the model
 * keeps the two values and the parameters they put in the URL.
 */
module ProjectModal {

  /** The dialog's state; the dialog itself hands `SetIsOpen` to its own open and dismiss events. */
  class CreateProjectModal {
    var isOpen: bool
    var useAI: bool

    /** The query parameters the state puts in the URL: only those that are not at their default. */
    function QueryParams(): (r: set<string>)
      reads this
      ensures "create-project" in r <==> isOpen
      ensures "use-ai" in r <==> useAI
      ensures r <= {"create-project", "use-ai"}
    {
      (if isOpen then {"create-project"} else {}) + (if useAI then {"use-ai"} else {})
    }

    /** The state of a URL carrying neither parameter. */
    constructor()
      ensures !isOpen && !useAI
      ensures QueryParams() == {}
    {
      isOpen := false;
      useAI := false;
    }

    /** Opens the dialog on the AI form, whatever the previous state. */
    method GenAiProject()
      modifies this
      ensures isOpen && useAI
      ensures QueryParams() == {"create-project", "use-ai"}
    {
      useAI := true;
      isOpen := true;
    }

    /** Opens the dialog on the manual form, whatever the previous state. */
    method Open()
      modifies this
      ensures isOpen && !useAI
      ensures QueryParams() == {"create-project"}
    {
      useAI := false;
      isOpen := true;
    }

    /** Closes the dialog and leaves the AI form: the URL carries neither parameter. */
    method Close()
      modifies this
      ensures !isOpen && !useAI
      ensures QueryParams() == {}
    {
      isOpen := false;
      useAI := false;
    }

    /**
     * The dialog's own open and dismiss events set only `isOpen`: a
     * dismissed AI dialog leaves `use-ai` in the URL until the next
     * `Open` or `GenAiProject` resets it.
     */
    method SetIsOpen(open: bool)
      modifies this
      ensures isOpen == open && useAI == old(useAI)
      ensures !open && old(useAI) ==> QueryParams() == {"use-ai"}
    {
      isOpen := open;
    }
  }
}
