/** The outcome holder of a unit of work's saves: an optional captured fault
    and an append-only list of diagnostic messages. */
module SaveResults {
  import opened Store

  class SaveChangesResult {
    /** The last captured fault; `None` stands for a null exception. */
    var exception: Option<Fault>
    /** Diagnostic messages, in the order they were added. */
    var messages: seq<string>

    /** Derived, never stored: no fault has been captured. */
    predicate IsOk()
      reads this
    {
      exception == None
    }

    constructor ()
      ensures messages == [] && exception == None && IsOk()
    {
      messages := [];
      exception := None;
    }

    constructor WithMessage(message: string)
      ensures messages == [message] && exception == None && IsOk()
    {
      messages := [];
      exception := None;
      new;
      AddMessage(message);
    }

    /** The setter of the exception property. */
    method SetException(e: Option<Fault>)
      modifies this`exception
      ensures exception == e && (IsOk() <==> e == None)
      ensures messages == old(messages)
    {
      exception := e;
    }

    method AddMessage(message: string)
      modifies this`messages
      ensures messages == old(messages) + [message]
      ensures |messages| == |old(messages)| + 1 && messages[..|old(messages)|] == old(messages)
      ensures exception == old(exception) && IsOk() == old(IsOk())
    {
      messages := messages + [message];
    }
  }
}
