/**
 * The greeting helper of tutorial2/greetings.go: `Hello(name)` formats
 * "Hi, %v. Welcome!" with the name.
 */
module Greetings {
  import opened Wrappers

  /** The format string Hello passes to fmt.Sprintf. */
  const GreetingFormat: string := "Hi, %v. Welcome!"

  /** True when s holds no `%`, so fmt copies it as plain text. */
  predicate NoPercent(s: string)
  {
    forall i :: 0 <= i < |s| ==> s[i] != '%'
  }

  /**
   * The first `%v` of format replaced by arg (`%v` of a string is the string
   * itself), every other character copied; None when format has no `%v`.
   */
  function SubstituteFirstV(format: string, arg: string): (r: Option<string>)
    ensures NoPercent(format) ==> r == None
    decreases |format|
  {
    if |format| < 2 then None
    else if format[0] == '%' && format[1] == 'v' then Some(arg + format[2..])
    else
      match SubstituteFirstV(format[1..], arg)
      case None => None
      case Some(s) => Some([format[0]] + s)
  }

  /**
   * fmt.Sprintf(format, arg) for a format whose only verb is `%v` and one
   * string operand. When no verb consumes the operand, fmt appends it as
   * "%!(EXTRA string=" + arg + ")".
   */
  function SprintfV(format: string, arg: string): (r: string)
    ensures NoPercent(format) ==> r == format + "%!(EXTRA string=" + arg + ")"
  {
    match SubstituteFirstV(format, arg)
    case Some(s) => s
    case None => format + "%!(EXTRA string=" + arg + ")"
  }

  /** Text without a `%` is copied unchanged in front of whatever the rest substitutes to. */
  lemma {:induction false} SubstituteLiteral(lit: string, rest: string, arg: string)
    requires NoPercent(lit)
    ensures SubstituteFirstV(lit + rest, arg) ==
      match SubstituteFirstV(rest, arg)
      case None => None
      case Some(s) => Some(lit + s)
    decreases |lit|
  {
    if lit != [] {
      var s := lit + rest;
      if |s| < 2 {
        assert lit == s && rest == [];
      } else {
        assert s[0] == lit[0] && s[0] != '%';
        assert s[1..] == lit[1..] + rest;
        SubstituteLiteral(lit[1..], rest, arg);
        assert lit == [lit[0]] + lit[1..];
        match SubstituteFirstV(rest, arg)
        case None =>
        case Some(t) =>
          assert [lit[0]] + (lit[1..] + t) == lit + t;
      }
    } else {
      assert lit + rest == rest;
      match SubstituteFirstV(rest, arg)
      case None =>
      case Some(t) => assert lit + t == t;
    }
  }

  /** Text without a `%` is copied unchanged in front of whatever the rest formats to. */
  lemma {:induction false} SprintfVLiteral(lit: string, rest: string, arg: string)
    requires NoPercent(lit)
    ensures SprintfV(lit + rest, arg) == lit + SprintfV(rest, arg)
  {
    SubstituteLiteral(lit, rest, arg);
    if SubstituteFirstV(rest, arg).None? {
      assert lit + rest + "%!(EXTRA string=" + arg + ")"
          == lit + (rest + "%!(EXTRA string=" + arg + ")");
    }
  }

  /** A format with exactly one `%v` puts the operand in its place and copies the text around it. */
  lemma {:induction false} SprintfVOneVerb(lit: string, rest: string, arg: string)
    requires NoPercent(lit) && NoPercent(rest)
    ensures SprintfV(lit + "%v" + rest, arg) == lit + arg + rest
  {
    SprintfVLiteral(lit, "%v" + rest, arg);
    assert lit + "%v" + rest == lit + ("%v" + rest);
    assert ("%v" + rest)[2..] == rest;
  }

  /** Hello returns a greeting that embeds the name: exactly "Hi, " + name + ". Welcome!", with no failure path. */
  function Hello(name: string): (message: string)
    ensures message == "Hi, " + name + ". Welcome!"
  {
    assert GreetingFormat == "Hi, " + "%v" + ". Welcome!";
    SprintfVOneVerb("Hi, ", ". Welcome!", name);
    SprintfV(GreetingFormat, name)
  }

  /** Every greeting starts with "Hi, ", ends with ". Welcome!" and is 14 characters longer than the name. */
  lemma HelloShape(name: string)
    ensures |Hello(name)| == |name| + 14
    ensures Hello(name)[..4] == "Hi, "
    ensures Hello(name)[|name| + 4..] == ". Welcome!"
    ensures Hello(name)[4..|name| + 4] == name
  {
  }

  /** Different names give different greetings. */
  lemma HelloInjective(a: string, b: string)
    requires Hello(a) == Hello(b)
    ensures a == b
  {
    HelloShape(a);
    HelloShape(b);
  }

  /** The empty name gives "Hi, . Welcome!". */
  lemma HelloEmpty()
    ensures Hello("") == "Hi, . Welcome!"
  {
    assert "Hi, " + "" == "Hi, ";
    assert "Hi, " + ". Welcome!" == "Hi, . Welcome!";
  }
}
