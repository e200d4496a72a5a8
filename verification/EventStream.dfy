/** The receiving side of server-sent events: section 9.2.5 and 9.2.6 of the WHATWG HTML Living Standard, as an
    automaton over the decoded characters of the stream. */
module EventStream {

  datatype Message = Message(event: string, data: string)

  /** The line being read, whether a CR has just ended one, the two buffers, and what was dispatched so far. */
  datatype Parser = Parser(line: string, afterCr: bool, event: string, data: string, out: seq<Message>)

  function Clean(out: seq<Message>): Parser {
    Parser("", false, "", "", out)
  }

  function Dispatch(p: Parser): Parser {
    if p.data == "" then p.(event := "", data := "")
    else
      var m := Message(if p.event == "" then "message" else p.event, p.data[..|p.data| - 1]);
      p.(event := "", data := "", out := p.out + [m])
  }

  /** The position of the first colon, or the length of the line. */
  function Colon(line: string): (n: nat)
    ensures n <= |line| && (n < |line| ==> line[n] == ':')
    ensures forall i :: 0 <= i < n ==> line[i] != ':'
  {
    if line == "" || line[0] == ':' then 0 else 1 + Colon(line[1..])
  }

  function Value(rest: string): string {
    if rest != "" && rest[0] == ' ' then rest[1..] else rest
  }

  function Field(p: Parser, name: string, value: string): Parser {
    if name == "event" then p.(event := value)
    else if name == "data" then p.(data := p.data + value + "\n")
    else p
  }

  function EndLine(p: Parser): Parser {
    var line, q := p.line, p.(line := "");
    if line == "" then Dispatch(q)
    else
      var n := Colon(line);
      if n == 0 then q
      else if n < |line| then Field(q, line[..n], Value(line[n + 1..]))
      else Field(q, line, "")
  }

  function Consume(p: Parser, c: char): Parser {
    if c == '\n' && p.afterCr then p.(afterCr := false)
    else if c == '\n' || c == '\r' then EndLine(p).(afterCr := c == '\r')
    else p.(line := p.line + [c], afterCr := false)
  }

  function Feed(p: Parser, s: string): Parser
    decreases |s|
  {
    if s == "" then p else Feed(Consume(p, s[0]), s[1..])
  }

  lemma {:induction false} FeedAppend(p: Parser, a: string, b: string)
    ensures Feed(p, a + b) == Feed(Feed(p, a), b)
    decreases |a|
  {
    if a == "" {
      assert a + b == b;
    } else {
      assert (a + b)[1..] == a[1..] + b;
      FeedAppend(Consume(p, a[0]), a[1..], b);
    }
  }

  /** Dispatched messages are never taken back. */
  lemma {:induction false} FeedGrows(p: Parser, s: string)
    ensures p.out <= Feed(p, s).out
    decreases |s|
  {
    if s != "" {
      FeedGrows(Consume(p, s[0]), s[1..]);
    }
  }

  predicate Unbroken(s: string) {
    '\n' !in s && '\r' !in s
  }

  lemma {:induction false} FeedText(p: Parser, s: string)
    requires Unbroken(s) && !p.afterCr
    ensures Feed(p, s) == p.(line := p.line + s)
    decreases |s|
  {
    if s == "" {
      assert p.line + s == p.line;
    } else {
      FeedText(Consume(p, s[0]), s[1..]);
      assert p.line + [s[0]] + s[1..] == p.line + s;
    }
  }

  /** A whole line, ended by LF, read from the start of a line. */
  lemma FeedLine(p: Parser, s: string)
    requires Unbroken(s) && !p.afterCr && p.line == ""
    ensures Feed(p, s + "\n") == EndLine(p.(line := s))
  {
    FeedAppend(p, s, "\n");
    FeedText(p, s);
    assert p.line + s == s;
    var q := p.(line := s);
    assert "\n"[1..] == "";
    assert Feed(q, "\n") == Consume(q, '\n');
  }

  lemma ColonAt(name: string, rest: string)
    requires ':' !in name
    ensures Colon(name + ":" + rest) == |name|
    ensures (name + ":" + rest)[..|name|] == name && (name + ":" + rest)[|name| + 1..] == rest
  {
    var line := name + ":" + rest;
    var n := Colon(line);
    assert line[|name|] == ':';
    assert forall i :: 0 <= i < |name| ==> line[i] == name[i];
  }

  /** A named field with a space after its colon. */
  lemma EndFieldLine(p: Parser, name: string, value: string)
    requires ':' !in name && name != ""
    ensures EndLine(p.(line := name + ": " + value)) == Field(p.(line := ""), name, value)
  {
    assert name + ": " + value == name + ":" + (" " + value);
    ColonAt(name, " " + value);
    assert (" " + value)[1..] == value;
  }

  /** The line of a named field, read from the start of a line. */
  lemma FeedField(p: Parser, name: string, value: string)
    requires ':' !in name && name != "" && Unbroken(name) && Unbroken(value) && !p.afterCr && p.line == ""
    ensures Feed(p, name + ": " + value + "\n") == Field(p, name, value)
  {
    FeedLine(p, name + ": " + value);
    EndFieldLine(p, name, value);
    assert p.(line := "") == p;
  }

  /** An empty line dispatches. */
  lemma FeedBlank(p: Parser)
    requires !p.afterCr && p.line == ""
    ensures Feed(p, "\n") == Dispatch(p)
  {
    assert "\n"[1..] == "";
    assert Feed(p, "\n") == Consume(p, '\n');
  }

  // ----- What else a receiver does with a stream -----

  /** The same text with every line ended by CR LF. */
  function WithCrLf(s: string): string {
    if s == "" then "" else (if s[0] == '\n' then "\r\n" else [s[0]]) + WithCrLf(s[1..])
  }

  /** Line ends are interchangeable: a stream without CR reads the same with CR LF for every LF. */
  lemma {:induction false} LineEndsAlike(p: Parser, s: string)
    requires '\r' !in s && !p.afterCr
    ensures Feed(p, WithCrLf(s)) == Feed(p, s) && !Feed(p, s).afterCr
    decreases |s|
  {
    if s != "" {
      var q, rest := Consume(p, s[0]), WithCrLf(s[1..]);
      LineEndsAlike(q, s[1..]);
      if s[0] == '\n' {
        var w := "\r\n" + rest;
        assert w[1..] == "\n" + rest && ("\n" + rest)[1..] == rest;
        assert Consume(Consume(p, '\r'), '\n') == q;
      } else {
        assert ([s[0]] + rest)[1..] == rest;
      }
    }
  }

  function DataLines(values: seq<string>): string {
    if values == [] then "" else "data" + ": " + values[0] + "\n" + DataLines(values[1..])
  }

  function Ended(values: seq<string>): string {
    if values == [] then "" else values[0] + "\n" + Ended(values[1..])
  }

  lemma {:induction false} FeedDataLines(p: Parser, values: seq<string>)
    requires !p.afterCr && p.line == "" && forall i :: 0 <= i < |values| ==> Unbroken(values[i])
    ensures Feed(p, DataLines(values)) == p.(data := p.data + Ended(values))
    decreases |values|
  {
    if values == [] {
      assert p.data + "" == p.data;
    } else {
      FeedField(p, "data", values[0]);
      var q := Field(p, "data", values[0]);
      FeedAppend(p, "data" + ": " + values[0] + "\n", DataLines(values[1..]));
      FeedDataLines(q, values[1..]);
      assert p.data + values[0] + "\n" + Ended(values[1..]) == p.data + (values[0] + "\n" + Ended(values[1..]));
    }
  }

  /** Several data lines make one message of all of them, a line each, with the default name if none was given. */
  lemma DataLinesDispatch(out: seq<Message>, values: seq<string>)
    requires values != [] && forall i :: 0 <= i < |values| ==> Unbroken(values[i])
    ensures var all := Ended(values);
            all != "" && Feed(Clean(out), DataLines(values) + "\n") == Clean(out + [Message("message", all[..|all| - 1])])
  {
    FeedDataLines(Clean(out), values);
    assert "" + Ended(values) == Ended(values);
    FeedAppend(Clean(out), DataLines(values), "\n");
    FeedBlank(Clean(out).(data := Ended(values)));
  }
}
