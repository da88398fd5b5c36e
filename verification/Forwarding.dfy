/** Forwarding one request: the failover loop and the two-way relay, at the level of bytes. */
module Forwarding {
  import opened Bytes
  import opened Prelude
  import HeadReader

  /** How one candidate behaves when it is tried; `stream` is everything it would ever send. */
  datatype Upstream =
    | Unreachable
    | WriteFails(taken: nat)
    | Speaks(stream: Text, lineReadable: bool)

  /** The source ran out, a write failed, or the other direction closed the source. */
  datatype Ending = Running | AtEof | Broken | CutOff

  /** One direction of the relay: what its source has yet to give and what its destination was given. */
  datatype Pipe = Pipe(unread: Text, sent: Text, ending: Ending)

  datatype Direction = Up | Down

  /** What happens next in a relay: a chunk passes, all but its first bytes are lost to a failing write, or the source ends. */
  datatype Move =
    | Carry(direction: Direction, size: nat)
    | Lose(direction: Direction, size: nat, passed: nat)
    | End(direction: Direction)

  /**
   * One turn of a pipe; nothing happens to a pipe that has ended. A pipe that ends closes its
   * destination, which is the other one's source: what that source had delivered can still be
   * read, and then there is an EOF, be there more to come or not.
   */
  function Turn(p: Pipe, otherRuns: bool, m: Move): Pipe {
    if !p.ending.Running? then p
    else
      match m
      case Carry(_, size) =>
        var chunk := Take(p.unread, size);
        Pipe(p.unread[|chunk|..], p.sent + chunk, Running)
      case Lose(_, size, passed) =>
        var chunk := Take(p.unread, size);
        Pipe(p.unread[|chunk|..], p.sent + Take(chunk, passed), Broken)
      case End(_) =>
        if p.unread == [] then p.(ending := AtEof) else if !otherRuns then p.(ending := CutOff) else p
  }

  /** The two directions of one connection. */
  datatype Link = Link(up: Pipe, down: Pipe) {
    predicate Over() {
      !up.ending.Running? && !down.ending.Running?
    }
  }

  function LinkTurn(l: Link, m: Move): Link {
    if m.direction.Up? then l.(up := Turn(l.up, l.down.ending.Running?, m))
    else l.(down := Turn(l.down, l.up.ending.Running?, m))
  }

  function Relayed(l: Link, schedule: seq<Move>): Link {
    if schedule == [] then l else LinkTurn(Relayed(l, schedule[..|schedule| - 1]), schedule[|schedule| - 1])
  }

  /** Of the source stream, the destination has a prefix: all that was read while the pipe runs, all of it at EOF. */
  ghost predicate Conveys(p: Pipe, stream: Text) {
    && p.sent <= stream
    && (p.ending.Running? ==> p.sent + p.unread == stream)
    && (p.ending.AtEof? ==> p.sent == stream)
  }

  lemma TurnConveys(p: Pipe, otherRuns: bool, m: Move, stream: Text)
    requires Conveys(p, stream)
    ensures Conveys(Turn(p, otherRuns, m), stream)
    ensures p.sent <= Turn(p, otherRuns, m).sent
  {
    if p.ending.Running? && !m.End? {
      var chunk := Take(p.unread, m.size);
      assert p.unread == chunk + p.unread[|chunk|..];
      assert p.sent + p.unread == p.sent + chunk + p.unread[|chunk|..];
      if m.Lose? {
        assert p.sent + chunk == p.sent + Take(chunk, m.passed) + chunk[|Take(chunk, m.passed)|..];
      }
    }
  }

  /** Whatever the schedule, both destinations have prefixes of their streams, and what was sent stays sent. */
  lemma {:induction false} RelayConveys(l: Link, schedule: seq<Move>, toUpstream: Text, toClient: Text)
    requires Conveys(l.up, toUpstream) && Conveys(l.down, toClient)
    ensures var r := Relayed(l, schedule);
            && Conveys(r.up, toUpstream) && Conveys(r.down, toClient)
            && l.up.sent <= r.up.sent && l.down.sent <= r.down.sent
  {
    if schedule != [] {
      var before, m := Relayed(l, schedule[..|schedule| - 1]), schedule[|schedule| - 1];
      RelayConveys(l, schedule[..|schedule| - 1], toUpstream, toClient);
      TurnConveys(before.up, before.down.ending.Running?, m, toUpstream);
      TurnConveys(before.down, before.up.ending.Running?, m, toClient);
    }
  }

  /** A direction is cut off only by the other one, which ended of itself. */
  ghost predicate CutByOther(l: Link) {
    && (l.up.ending.CutOff? ==> l.down.ending.AtEof? || l.down.ending.Broken?)
    && (l.down.ending.CutOff? ==> l.up.ending.AtEof? || l.up.ending.Broken?)
  }

  lemma {:induction false} OneEndsOfItself(l: Link, schedule: seq<Move>)
    requires CutByOther(l)
    ensures CutByOther(Relayed(l, schedule))
  {
    if schedule != [] {
      OneEndsOfItself(l, schedule[..|schedule| - 1]);
    }
  }

  /**
   * What is still received by an end that has closed its own direction: any amount more, and
   * nothing for certain. Every prefix of the stream from what it has to the whole is an outcome.
   */
  lemma HalfCloseOutcomes(l: Link, toUpstream: Text, toClient: Text, t: Text)
    requires !l.up.ending.Running? && l.down.ending.Running?
    requires Conveys(l.up, toUpstream) && Conveys(l.down, toClient)
    ensures (exists schedule :: Relayed(l, schedule).Over() && Relayed(l, schedule).down.sent == t)
            <==> l.down.sent <= t <= toClient
  {
    forall schedule | Relayed(l, schedule).Over() && Relayed(l, schedule).down.sent == t ensures l.down.sent <= t <= toClient {
      RelayConveys(l, schedule, toUpstream, toClient);
    }
    if l.down.sent <= t <= toClient {
      PrefixReachable(l, toClient, t);
    }
  }

  lemma TwoTurns(l: Link, m: Move, n: Move)
    ensures Relayed(l, [m, n]) == LinkTurn(LinkTurn(l, m), n)
  {
    assert [m][..0] == [] && [m, n][..1] == [m];
    assert Relayed(l, [m]) == LinkTurn(l, m);
  }

  lemma CarriedTo(p: Pipe, stream: Text, t: Text)
    requires p.ending.Running? && Conveys(p, stream) && p.sent <= t <= stream
    ensures Turn(p, false, Carry(Down, |t| - |p.sent|)).sent == t
    ensures Turn(p, false, Carry(Down, |t| - |p.sent|)).ending.Running?
  {
    var chunk := Take(p.unread, |t| - |p.sent|);
    assert t == p.sent + t[|p.sent|..];
    assert chunk == t[|p.sent|..] by {
      assert forall i | 0 <= i < |chunk| :: p.unread[i] == stream[|p.sent| + i];
    }
  }

  lemma PrefixReachable(l: Link, toClient: Text, t: Text)
    requires !l.up.ending.Running? && l.down.ending.Running? && Conveys(l.down, toClient)
    requires l.down.sent <= t <= toClient
    ensures exists schedule :: Relayed(l, schedule).Over() && Relayed(l, schedule).down.sent == t
  {
    var carry, end := Carry(Down, |t| - |l.down.sent|), End(Down);
    CarriedTo(l.down, toClient, t);
    TwoTurns(l, carry, end);
    assert Relayed(l, [carry, end]).Over();
  }

  lemma {:induction false} OverForGood(l: Link, schedule: seq<Move>)
    requires l.Over()
    ensures Relayed(l, schedule) == l
  {
    if schedule != [] {
      OverForGood(l, schedule[..|schedule| - 1]);
    }
  }

  lemma {:induction false} RelayedTogether(l: Link, first: seq<Move>, rest: seq<Move>)
    ensures Relayed(l, first + rest) == Relayed(Relayed(l, first), rest)
  {
    if rest == [] {
      assert first + rest == first;
    } else {
      assert (first + rest)[..|first + rest| - 1] == first + rest[..|rest| - 1];
      RelayedTogether(l, first, rest[..|rest| - 1]);
    }
  }

  /** The two pipes run until both have ended, or for as long as the schedule is looked at. */
  method Relay(up: Pipe, down: Pipe, schedule: seq<Move>) returns (up': Pipe, down': Pipe)
    ensures Link(up', down') == Relayed(Link(up, down), schedule)
  {
    up', down' := up, down;
    ghost var start := Link(up, down);
    var i := 0;
    while i < |schedule| && (up'.ending.Running? || down'.ending.Running?)
      invariant 0 <= i <= |schedule|
      invariant Link(up', down') == Relayed(start, schedule[..i])
    {
      assert schedule[..i + 1][..i] == schedule[..i];
      if schedule[i].direction == Up {
        up' := Turn(up', down'.ending.Running?, schedule[i]);
      } else {
        down' := Turn(down', up'.ending.Running?, schedule[i]);
      }
      i := i + 1;
    }
    assert schedule == schedule[..i] + schedule[i..];
    RelayedTogether(start, schedule[..i], schedule[i..]);
    if i < |schedule| {
      OverForGood(Link(up', down'), schedule[i..]);
    }
  }

  /** The bytes up to and including the first newline. */
  function FirstLine(s: Text): (line: Text)
    ensures line <= s
  {
    if s == [] then [] else if s[0] == LF then [LF] else
      var rest := FirstLine(s[1..]);
      assert s == [s[0]] + s[1..];
      [s[0]] + rest
  }

  /** The first line ends at the first newline, or with the text if there is none. */
  lemma {:induction false} FirstLineIs(s: Text)
    ensures LF !in s ==> FirstLine(s) == s
    ensures forall i: nat | i < |s| && s[i] == LF && LF !in s[..i] :: FirstLine(s) == s[..i + 1]
  {
    if s != [] {
      FirstLineIs(s[1..]);
      assert s == [s[0]] + s[1..];
      forall i: nat | i < |s| && s[i] == LF && LF !in s[..i] ensures FirstLine(s) == s[..i + 1] {
        if i > 0 {
          assert s[..i][0] == s[0];
          assert s[1..][..i - 1] == s[..i][1..];
          assert s[1..][..i] == s[..i + 1][1..];
        }
      }
    }
  }

  function Upper(b: byte): byte {
    if 97 <= b <= 122 then b - 32 else b
  }

  /** The line begins with `HTTP/`, in any case. */
  predicate IsStatusLine(line: Text) {
    |line| >= 5 && Upper(line[0]) == 72 && Upper(line[1]) == 84 && Upper(line[2]) == 84 && Upper(line[3]) == 80 && line[4] == 47
  }

  /** The candidate connects, takes the head and answers with a status line in time. */
  predicate Serves(u: Upstream) {
    u.Speaks? && u.lineReadable && IsStatusLine(FirstLine(u.stream))
  }

  /** The bytes of `HTTP/`, in any case, at the start of a text. */
  predicate SpellsHttp(s: Text) {
    && |s| >= 5 && (s[0] == 72 || s[0] == 104) && (s[1] == 84 || s[1] == 116)
    && (s[2] == 84 || s[2] == 116) && (s[3] == 80 || s[3] == 112) && s[4] == 47
  }

  lemma {:induction false} LineStart(s: Text, n: nat)
    requires n <= |s| && LF !in s[..n]
    ensures n <= |FirstLine(s)|
  {
    if n > 0 {
      assert s[..n][0] == s[0];
      assert s[1..][..n - 1] == s[..n][1..];
      LineStart(s[1..], n - 1);
    }
  }

  /** A candidate serves exactly if its line can be read in time and all it ever sends starts with `HTTP/`, in any case. */
  lemma ServesIff(u: Upstream)
    ensures Serves(u) <==> u.Speaks? && u.lineReadable && SpellsHttp(u.stream)
  {
    if u.Speaks? && SpellsHttp(u.stream) {
      LineStart(u.stream, 5);
    }
  }

  /** What a candidate that is given up was sent. */
  function Attempted(u: Upstream, head: Text): (sent: Text)
    ensures sent <= head && (u.Unreachable? ==> sent == []) && (u.Speaks? ==> sent == head)
  {
    match u
    case Unreachable => []
    case WriteFails(taken) => Take(head, taken)
    case Speaks(_, _) => head
  }

  /** A relay that started from two streams, part of which had already been passed on. */
  ghost predicate Relays(up: Pipe, down: Pipe, toUpstream: Text, toClient: Text) {
    Conveys(up, toUpstream) && Conveys(down, toClient) && CutByOther(Link(up, down))
  }

  /** Starting the relay with a first part of either stream and running it. */
  method StartRelay(head: Text, rest: Text, status: Text, answer: Text, schedule: seq<Move>) returns (up: Pipe, down: Pipe)
    ensures Link(up, down) == Relayed(Link(Pipe(rest, head, Running), Pipe(answer, status, Running)), schedule)
    ensures Relays(up, down, head + rest, status + answer) && head <= up.sent && status <= down.sent
  {
    ghost var start := Link(Pipe(rest, head, Running), Pipe(answer, status, Running));
    RelayConveys(start, schedule, head + rest, status + answer);
    OneEndsOfItself(start, schedule);
    up, down := Relay(Pipe(rest, head, Running), Pipe(answer, status, Running), schedule);
  }

  /** What became of a forwarded request. */
  datatype Outcome = Outcome(served: Option<nat>, sent: seq<Text>, up: Pipe, down: Pipe)

  /** The streams a forwarded request must preserve. */
  ghost predicate Preserves(o: Outcome, candidates: seq<Upstream>, head: Text, rest: Text) {
    match o.served
    case None =>
      && |o.sent| == |candidates| && o.down.sent == []
      && forall j | 0 <= j < |candidates| :: !Serves(candidates[j]) && o.sent[j] == Attempted(candidates[j], head)
    case Some(k) =>
      && k < |candidates| && |o.sent| == k + 1 && Serves(candidates[k])
      && (forall j | 0 <= j < k :: !Serves(candidates[j]) && o.sent[j] == Attempted(candidates[j], head))
      && o.sent[k] == o.up.sent && head <= o.up.sent && FirstLine(candidates[k].stream) <= o.down.sent
      && Relays(o.up, o.down, head + rest, candidates[k].stream)
  }

  /**
   * The failover loop. The first candidate that serves gets a prefix of exactly the client's
   * stream, and the client a prefix of exactly that candidate's stream; the ones before it were
   * sent the head at most. `rest` is what the client sends after the head was read.
   */
  method Forward(candidates: seq<Upstream>, head: Text, rest: Text, schedule: seq<Move>) returns (o: Outcome)
    ensures Preserves(o, candidates, head, rest)
  {
    var sent: seq<Text> := [];
    for k := 0 to |candidates|
      invariant |sent| == k
      invariant forall j | 0 <= j < k :: !Serves(candidates[j]) && sent[j] == Attempted(candidates[j], head)
    {
      var u := candidates[k];
      match u {
        case Unreachable => sent := sent + [[]];
        case WriteFails(taken) => sent := sent + [Take(head, taken)];
        case Speaks(stream, lineReadable) =>
          var status := FirstLine(stream);
          if lineReadable && IsStatusLine(status) {
            assert status + stream[|status|..] == stream;
            var up, down := StartRelay(head, rest, status, stream[|status|..], schedule);
            return Outcome(Some(k), sent + [up.sent], up, down);
          }
          sent := sent + [head];
      }
    }
    o := Outcome(None, sent, Pipe(rest, [], Running), Pipe([], [], Running));
  }

  /**
   * Reading the head and forwarding together: body bytes that arrived with the head are part of it,
   * so the serving candidate's stream starts at the client's first byte.
   */
  method ServeForward(client: StreamReader, candidates: seq<Upstream>, schedule: seq<Move>) returns (head: HeadReader.Head, o: Outcome)
    requires forall i | 0 <= i < |client.chunks| :: client.chunks[i] != []
    modifies client
    ensures exists taken: nat :: HeadReader.Verdict(old(client.chunks), 65536, taken, head)
    ensures head.Accepted? ==> head.bytes <= old(Flatten(client.chunks))
    ensures head.Accepted? ==>
              exists rest :: head.bytes + rest == old(Flatten(client.chunks)) && Preserves(o, candidates, head.bytes, rest)
    ensures head.Accepted? && o.served.Some? ==> Conveys(o.up, old(Flatten(client.chunks)))
    ensures !head.Accepted? ==> o.sent == [] && o.served.None?
  {
    ghost var all := client.chunks;
    ghost var taken: nat;
    head, taken := HeadReader.ReadHttpHead(client, HeadReader.HEADER_LIMIT);
    if head.Accepted? {
      FlattenPrefix(all, taken);
      o := Forward(candidates, head.bytes, Flatten(client.chunks), schedule);
    } else {
      o := Outcome(None, [], Pipe([], [], Running), Pipe([], [], Running));
    }
  }
}
