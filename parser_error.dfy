/**
  The error value of the parsers (config_much::ParserError): a message string
  that is built by appending and compared by equality. A list of errors is a
  `ParserErrors`; a parse pass answers with a `ParserResult`, which is absent
  when nothing went wrong.
 */
module ParserErrors {
  import opened Wrappers

  class ParserError {
    var msg: string

    /** The default-constructed error has an empty message. */
    constructor Empty()
      ensures msg == []
    {
      msg := [];
    }

    /** An error built from a string holds exactly that string. */
    constructor (s: string)
      ensures msg == s
    {
      msg := s;
    }

    /** what(): the message built so far. */
    function What(): (r: string)
      reads this
      ensures r == msg
    {
      msg
    }

    /** `e << x`: the textual form of x goes to the end of the message; what was there stays. */
    method Append(x: string)
      modifies this
      ensures msg == old(msg) + x
      ensures msg[..|old(msg)|] == old(msg)
    {
      msg := msg + x;
    }

    /** operator==: two errors are equal exactly when their messages are. */
    predicate Equals(other: ParserError)
      reads this, other
      ensures Equals(other) <==> What() == other.What()
    {
      msg == other.msg
    }
  }

  lemma EqualsIsEquivalence(a: ParserError, b: ParserError, c: ParserError)
    ensures a.Equals(a)
    ensures a.Equals(b) <==> b.Equals(a)
    ensures a.Equals(b) && b.Equals(c) ==> a.Equals(c)
    ensures a.Equals(b) <==> a.What() == b.What()
  {
  }

  /**
    Since equality of errors is equality of their messages, a list of errors
    is represented by the list of its messages.
   */
  type ParserErrorList = seq<string>

  type ParserResult = Option<ParserErrorList>

  /** `if (!errors.empty()) return errors; return {};` */
  function ToResult(errors: ParserErrorList): (r: ParserResult)
    ensures r.None? <==> errors == []
    ensures r.Some? ==> r.value == errors
  {
    if errors == [] then None else Some(errors)
  }

  /** The errors a result carries (what a caller inserts after `if (err)`); none when it is absent. */
  function ErrorsOf(r: ParserResult): ParserErrorList
  {
    if r.Some? then r.value else []
  }

  lemma ResultRoundTrip(errors: ParserErrorList)
    ensures ErrorsOf(ToResult(errors)) == errors
  {
  }
}
