/** The job event stream of one caller: a bounded queue that drops when full, and a single writer that sends whole
    frames and heartbeats. */
module JobEvents {
  import opened EventStream

  const BACKLOG: nat := 64

  /** A job state change on the bus: the client owning the job and its marshalled snapshot, if it marshals. */
  datatype Change = Change(client: string, payload: string, marshals: bool)

  /** A job no client owns is everyone's; an owned one only its client's. */
  predicate VisibleTo(client: string, caller: string) {
    client == "" || client == caller
  }

  predicate Shown(c: Change, caller: string) {
    VisibleTo(c.client, caller) && c.marshals
  }

  function Frame(event: string, data: string): string {
    "event: " + event + "\ndata: " + data + "\n\n"
  }

  /** A block holding one comment line. */
  function Comment(text: string): string {
    ":" + text + "\n\n"
  }

  const READY := Comment(" ready")
  const HEARTBEAT := Comment(" heartbeat")

  /** Frames waiting to be written, and every character written so far. */
  datatype Conn = Conn(queue: seq<string>, sent: string)

  /** The bus pushes a change, the writer takes a frame, or the heartbeat ticks; the schedule picks. */
  datatype Turn = Push(change: Change) | Write | Beat

  const OPEN := Conn([], READY)

  function Take(caller: string, c: Conn, turn: Turn): Conn {
    match turn
    case Push(change) =>
      if Shown(change, caller) && |c.queue| < BACKLOG then c.(queue := c.queue + [Frame("job", change.payload)]) else c
    case Write => if c.queue == [] then c else Conn(c.queue[1..], c.sent + c.queue[0])
    case Beat => c.(sent := c.sent + HEARTBEAT)
  }

  function Run(caller: string, turns: seq<Turn>): Conn {
    if turns == [] then OPEN else Take(caller, Run(caller, turns[..|turns| - 1]), turns[|turns| - 1])
  }

  class JobStream {
    const caller: string
    var queue: seq<string>
    var sent: string

    function State(): Conn
      reads this
    {
      Conn(queue, sent)
    }

    constructor (caller: string)
      ensures this.caller == caller && State() == OPEN
    {
      this.caller := caller;
      queue, sent := [], READY;
    }

    /** Never blocks: a full backlog drops the change. */
    method Push(change: Change)
      modifies this
      ensures State() == Take(caller, old(State()), Turn.Push(change))
    {
      if !VisibleTo(change.client, caller) {
        return;
      }
      if !change.marshals {
        return;
      }
      if |queue| < BACKLOG {
        queue := queue + [Frame("job", change.payload)];
      }
    }

    /** The stream's only writer, following a schedule of ready channels. */
    method Pump(turns: seq<Turn>)
      requires forall i :: 0 <= i < |turns| ==> !turns[i].Push?
      modifies this
      ensures State() == Pumped(caller, old(State()), turns)
    {
      assert turns[..|turns|] == turns;
      for i := 0 to |turns|
        invariant State() == Pumped(caller, old(State()), turns[..i])
      {
        assert turns[..i + 1][..i] == turns[..i];
        match turns[i] {
          case Write =>
            if queue != [] {
              sent, queue := sent + queue[0], queue[1..];
            }
          case Beat =>
            sent := sent + HEARTBEAT;
        }
      }
    }
  }

  function Pumped(caller: string, c: Conn, turns: seq<Turn>): Conn {
    if turns == [] then c else Take(caller, Pumped(caller, c, turns[..|turns| - 1]), turns[|turns| - 1])
  }

  // ----- What was pushed, what was accepted -----

  /** The payloads of the changes the caller may see, in push order. */
  function Visible(caller: string, turns: seq<Turn>): seq<string> {
    if turns == [] then []
    else
      var before, turn := Visible(caller, turns[..|turns| - 1]), turns[|turns| - 1];
      if turn.Push? && Shown(turn.change, caller) then before + [turn.change.payload] else before
  }

  /** A visible push arriving while the backlog is full. */
  predicate Drops(caller: string, turns: seq<Turn>) {
    turns != [] &&
    var turn := turns[|turns| - 1];
    turn.Push? && Shown(turn.change, caller) && |Run(caller, turns[..|turns| - 1]).queue| >= BACKLOG
  }

  function Accepted(caller: string, turns: seq<Turn>): seq<string> {
    if turns == [] then []
    else
      var before, turn := Accepted(caller, turns[..|turns| - 1]), turns[|turns| - 1];
      if turn.Push? && Shown(turn.change, caller) && !Drops(caller, turns) then before + [turn.change.payload] else before
  }

  function Frames(payloads: seq<string>): seq<string> {
    seq(|payloads|, i requires 0 <= i < |payloads| => Frame("job", payloads[i]))
  }

  function Messages(payloads: seq<string>): seq<Message> {
    seq(|payloads|, i requires 0 <= i < |payloads| => Message("job", payloads[i]))
  }

  /** a can be obtained from b by leaving entries out. */
  predicate Subsequence(a: seq<string>, b: seq<string>) {
    if b == [] then a == []
    else
      (a != [] && a[|a| - 1] == b[|b| - 1] && Subsequence(a[..|a| - 1], b[..|b| - 1])) ||
      Subsequence(a, b[..|b| - 1])
  }

  // ----- Framing -----

  /** A frame read from a clean state dispatches exactly its one message and leaves the state clean. */
  lemma FrameParses(out: seq<Message>, payload: string)
    requires Unbroken(payload)
    ensures Feed(Clean(out), Frame("job", payload)) == Clean(out + [Message("job", payload)])
  {
    var p, q := Clean(out), Clean(out).(event := "job");
    var first, second := "event" + ": " + "job" + "\n", "data" + ": " + payload + "\n";
    assert Frame("job", payload) == first + (second + "\n");
    FeedAppend(p, first, second + "\n");
    FeedField(p, "event", "job");
    FeedAppend(q, second, "\n");
    FeedField(q, "data", payload);
    assert "" + payload + "\n" == payload + "\n";
    FeedBlank(q.(data := payload + "\n"));
    assert (payload + "\n")[..|payload + "\n"| - 1] == payload;
  }

  /** A comment block dispatches nothing and leaves the state clean. */
  lemma CommentParses(out: seq<Message>, text: string)
    requires Unbroken(text)
    ensures Feed(Clean(out), Comment(text)) == Clean(out)
  {
    var p := Clean(out);
    assert Comment(text) == ((":" + text) + "\n") + ("" + "\n");
    FeedAppend(p, (":" + text) + "\n", "" + "\n");
    FeedLine(p, ":" + text);
    assert Colon(":" + text) == 0;
    FeedLine(p, "");
  }

  // ----- Every schedule -----

  /** The state of a connection in terms of the accepted payloads: the last ones are queued as frames, and what was
      sent parses to exactly the earlier ones. */
  ghost predicate Faithful(c: Conn, accepted: seq<string>) {
    && |c.queue| <= BACKLOG && |c.queue| <= |accepted|
    && c.queue == Frames(accepted[|accepted| - |c.queue|..])
    && Feed(Clean([]), c.sent) == Clean(Messages(accepted[..|accepted| - |c.queue|]))
  }

  lemma WriteFaithful(c: Conn, accepted: seq<string>)
    requires Faithful(c, accepted) && c.queue != []
    requires forall i :: 0 <= i < |accepted| ==> Unbroken(accepted[i])
    ensures Faithful(Conn(c.queue[1..], c.sent + c.queue[0]), accepted)
  {
    var n := |accepted| - |c.queue|;
    assert c.queue[0] == Frame("job", accepted[n]);
    FeedAppend(Clean([]), c.sent, c.queue[0]);
    FrameParses(Messages(accepted[..n]), accepted[n]);
    assert Messages(accepted[..n]) + [Message("job", accepted[n])] == Messages(accepted[..n + 1]);
    assert c.queue[1..] == Frames(accepted[n + 1..]);
  }

  lemma PushFaithful(c: Conn, accepted: seq<string>, payload: string)
    requires Faithful(c, accepted) && |c.queue| < BACKLOG
    ensures Faithful(c.(queue := c.queue + [Frame("job", payload)]), accepted + [payload])
  {
    var n := |accepted| - |c.queue|;
    assert (accepted + [payload])[n..] == accepted[n..] + [payload];
    assert (accepted + [payload])[..n] == accepted[..n];
    assert c.queue + [Frame("job", payload)] == Frames(accepted[n..] + [payload]);
  }

  lemma HeartbeatParses(out: seq<Message>)
    ensures Feed(Clean(out), HEARTBEAT) == Clean(out)
  {
    CommentParses(out, " heartbeat");
  }

  lemma BeatFaithful(c: Conn, accepted: seq<string>)
    requires Faithful(c, accepted)
    ensures Faithful(c.(sent := c.sent + HEARTBEAT), accepted)
  {
    var out := Messages(accepted[..|accepted| - |c.queue|]);
    FeedAppend(Clean([]), c.sent, HEARTBEAT);
    HeartbeatParses(out);
  }

  /** Marshalled snapshots hold no raw line breaks. */
  predicate Marshalled(turns: seq<Turn>) {
    forall i :: 0 <= i < |turns| && turns[i].Push? && turns[i].change.marshals ==> Unbroken(turns[i].change.payload)
  }

  lemma {:induction false} AcceptedUnbroken(caller: string, turns: seq<Turn>)
    requires Marshalled(turns)
    ensures forall i :: 0 <= i < |Accepted(caller, turns)| ==> Unbroken(Accepted(caller, turns)[i])
  {
    if turns != [] {
      AcceptedUnbroken(caller, turns[..|turns| - 1]);
    }
  }

  /** Whose changes a caller receives, in every schedule: at each step the accepted payloads grow exactly by that of a
      change that marshals, belongs to no client or to the caller, and finds fewer than 64 frames waiting. */
  lemma AcceptedExactly(caller: string, turns: seq<Turn>, n: nat)
    requires n < |turns|
    ensures var before, after := Accepted(caller, turns[..n]), Accepted(caller, turns[..n + 1]);
            if turns[n].Push? && turns[n].change.marshals && (turns[n].change.client == "" || turns[n].change.client == caller)
               && |Run(caller, turns[..n]).queue| < 64
            then after == before + [turns[n].change.payload] else after == before
  {
    assert turns[..n + 1][..n] == turns[..n];
  }

  /** Hence every accepted payload comes from such a push. */
  lemma {:induction false} AcceptedComesFrom(caller: string, turns: seq<Turn>, i: nat) returns (n: nat)
    requires i < |Accepted(caller, turns)|
    ensures n < |turns| && turns[n].Push? && turns[n].change.payload == Accepted(caller, turns)[i]
    ensures turns[n].change.marshals && (turns[n].change.client == "" || turns[n].change.client == caller)
    ensures |Run(caller, turns[..n]).queue| < 64
  {
    var last := |turns| - 1;
    AcceptedExactly(caller, turns, last);
    assert turns[..last + 1] == turns;
    if i < |Accepted(caller, turns[..last])| {
      n := AcceptedComesFrom(caller, turns[..last], i);
      assert turns[..last][..n] == turns[..n];
    } else {
      n := last;
    }
  }

  /** Isolation: a schedule with changes of other clients only sends this caller nothing. */
  lemma OthersStaySilent(caller: string, turns: seq<Turn>)
    requires Marshalled(turns)
    requires forall i :: 0 <= i < |turns| && turns[i].Push? ==> turns[i].change.client !in {"", caller}
    ensures Run(caller, turns).queue == [] && Feed(Clean([]), Run(caller, turns).sent).out == []
  {
    if Accepted(caller, turns) != [] {
      var n := AcceptedComesFrom(caller, turns, 0);
      assert false;
    }
    StreamFaithful(caller, turns);
  }

  /** For every schedule of pushes, writes and heartbeats: at most 64 frames wait, and the characters sent parse to
      exactly the accepted changes that no longer wait, in push order, each as one whole message. */
  lemma {:induction false} StreamFaithful(caller: string, turns: seq<Turn>)
    requires Marshalled(turns)
    ensures Faithful(Run(caller, turns), Accepted(caller, turns)) && |Run(caller, turns).queue| <= 64
  {
    if turns == [] {
      CommentParses([], " ready");
      assert Messages([]) == [] && Frames([]) == [];
    } else {
      var init, turn := turns[..|turns| - 1], turns[|turns| - 1];
      StreamFaithful(caller, init);
      var c := Run(caller, init);
      match turn
      case Push(change) =>
        if Shown(change, caller) && |c.queue| < BACKLOG {
          PushFaithful(c, Accepted(caller, init), change.payload);
        }
      case Write =>
        if c.queue != [] {
          AcceptedUnbroken(caller, init);
          WriteFaithful(c, Accepted(caller, init));
        }
      case Beat => BeatFaithful(c, Accepted(caller, init));
    }
  }

  /** What leaving entries out means: the entries kept stand in the original at places that go up. */
  lemma {:induction false} SubsequencePlaces(a: seq<string>, b: seq<string>) returns (at: seq<nat>)
    requires Subsequence(a, b)
    ensures |at| == |a| && (forall i :: 0 <= i < |at| ==> at[i] < |b| && b[at[i]] == a[i])
    ensures forall i, j :: 0 <= i < j < |at| ==> at[i] < at[j]
    decreases |b|
  {
    if b == [] {
      at := [];
    } else {
      var n := |b| - 1;
      if Subsequence(a, b[..n]) {
        at := SubsequencePlaces(a, b[..n]);
      } else {
        var init := SubsequencePlaces(a[..|a| - 1], b[..n]);
        at := init + [n];
      }
    }
  }

  /** Only changes visible to the caller are accepted, in push order. */
  lemma {:induction false} AcceptedIsSubsequence(caller: string, turns: seq<Turn>)
    ensures Subsequence(Accepted(caller, turns), Visible(caller, turns))
  {
    if turns != [] {
      var init, turn := turns[..|turns| - 1], turns[|turns| - 1];
      AcceptedIsSubsequence(caller, init);
      if turn.Push? && Shown(turn.change, caller) {
        var a, v := Accepted(caller, init), Visible(caller, init);
        assert (v + [turn.change.payload])[..|v|] == v;
        assert (a + [turn.change.payload])[..|a|] == a;
      }
    }
  }

  lemma {:induction false} AcceptedAtMostVisible(caller: string, turns: seq<Turn>)
    ensures |Accepted(caller, turns)| <= |Visible(caller, turns)|
  {
    if turns != [] {
      AcceptedAtMostVisible(caller, turns[..|turns| - 1]);
    }
  }

  /** A visible change is lost exactly when some visible push met a full backlog. */
  lemma {:induction false} LostOnlyWhenFull(caller: string, turns: seq<Turn>)
    ensures Accepted(caller, turns) == Visible(caller, turns) <==>
            forall n :: 0 <= n <= |turns| ==> !Drops(caller, turns[..n])
  {
    if turns == [] {
      assert forall n :: 0 <= n <= |turns| ==> turns[..n] == [];
    } else {
      var init := turns[..|turns| - 1];
      LostOnlyWhenFull(caller, init);
      AcceptedAtMostVisible(caller, init);
      assert forall n :: 0 <= n <= |init| ==> turns[..n] == init[..n];
      assert turns[..|turns|] == turns;
      assert (forall n :: 0 <= n <= |turns| ==> !Drops(caller, turns[..n])) <==>
             (forall n :: 0 <= n <= |init| ==> !Drops(caller, init[..n])) && !Drops(caller, turns);
      var a, v, last := Accepted(caller, init), Visible(caller, init), turns[|turns| - 1];
      if last.Push? && Shown(last.change, caller) {
        var x := last.change.payload;
        assert (a + [x])[..|a|] == a && (v + [x])[..|v|] == v;
        assert a + [x] == v + [x] <==> a == v;
      }
    }
  }

  /** A connection may end anywhere, even inside a frame: whatever prefix of the sent characters arrives, the receiver
      dispatches a prefix of the accepted changes. */
  lemma CutStreamParses(caller: string, turns: seq<Turn>, n: nat)
    requires Marshalled(turns) && n <= |Run(caller, turns).sent|
    ensures Feed(Clean([]), Run(caller, turns).sent[..n]).out <= Messages(Accepted(caller, turns))
  {
    StreamFaithful(caller, turns);
    var sent, accepted := Run(caller, turns).sent, Accepted(caller, turns);
    assert sent == sent[..n] + sent[n..];
    FeedAppend(Clean([]), sent[..n], sent[n..]);
    FeedGrows(Feed(Clean([]), sent[..n]), sent[n..]);
    var m := |accepted| - |Run(caller, turns).queue|;
    assert Messages(accepted[..m]) == Messages(accepted)[..m];
  }
}
