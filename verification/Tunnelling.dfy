/** The CONNECT loop: like forwarding, but both heads are read and dropped before the relay starts. */
module Tunnelling {
  import opened Bytes
  import opened Prelude
  import opened Forwarding
  import HeadReader

  /** How one candidate behaves; its reads return the chunks, and `granted` is a 2xx status line. */
  datatype Peer =
    | Absent
    | Breaks(taken: nat)
    | Replies(chunks: seq<Text>, granted: bool)

  function Ascii(s: string): (t: Text)
    ensures |t| == |s| && forall i | 0 <= i < |s| && s[i] <= '~' :: t[i] as int == s[i] as int
  {
    seq(|s|, i requires 0 <= i < |s| => (s[i] as int % 256) as byte)
  }

  /** What the client is told before the relay starts. */
  const ESTABLISHED := Ascii("HTTP/1.1 200 Connection Established\r\n\r\n")

  /** Printable text and one blank line are a head that ends with the text. */
  lemma EndsOnce(t: Text)
    requires |t| >= 4 && t[|t| - 4..] == [13, 10, 13, 10] && forall i | 0 <= i < |t| - 4 :: t[i] >= 32
    ensures HeadReader.FirstEnd(t, |t|)
  {
    HeadReader.FourBytes(t, |t| - 4);
    assert t[|t| - 4..] == t[|t| - 4..|t| - 4 + 4];
  }

  lemma EstablishedStart()
    ensures |ESTABLISHED| == 39
    ensures ESTABLISHED[..13] == [72, 84, 84, 80, 47, 49, 46, 49, 32, 50, 48, 48, 32]
  {
    var s := "HTTP/1.1 200 Connection Established\r\n\r\n";
    assert s[0] == 'H' && s[1] == 'T' && s[2] == 'T' && s[3] == 'P' && s[4] == '/' && s[5] == '1' && s[6] == '.';
    assert s[7] == '1' && s[8] == ' ' && s[9] == '2' && s[10] == '0' && s[11] == '0' && s[12] == ' ';
    assert forall i | 0 <= i < 13 :: ESTABLISHED[i] as int == s[i] as int;
  }

  lemma EstablishedEnd()
    ensures |ESTABLISHED| == 39 && ESTABLISHED[35..] == [13, 10, 13, 10]
    ensures forall i | 0 <= i < 35 :: ESTABLISHED[i] >= 32
  {
    var s := "HTTP/1.1 200 Connection Established\r\n\r\n";
    assert |s| == 39 && forall i | 0 <= i < 35 :: s[i] >= ' ';
    assert s[35] == '\r' && s[36] == '\n' && s[37] == '\r' && s[38] == '\n';
    assert forall i | 35 <= i < 39 :: ESTABLISHED[i] as int == s[i] as int;
  }

  /** It is one complete head that starts with `HTTP/1.1 200 `. */
  lemma EstablishedIsAHead()
    ensures HeadReader.FirstEnd(ESTABLISHED, |ESTABLISHED|)
    ensures |ESTABLISHED| > 13 && ESTABLISHED[..13] == [72, 84, 84, 80, 47, 49, 46, 49, 32, 50, 48, 48, 32]
  {
    EstablishedStart();
    EstablishedEnd();
    EndsOnce(ESTABLISHED);
  }

  ghost predicate NoEmptyReads(p: Peer) {
    p.Replies? ==> forall i | 0 <= i < |p.chunks| :: p.chunks[i] != []
  }

  /** The peer grants the tunnel after `taken` reads, which hold its reply head and perhaps more. */
  ghost predicate Grants(p: Peer, taken: nat) {
    && p.Replies? && p.granted && taken <= |p.chunks|
    && HeadReader.Verdict(p.chunks, 65536, taken, HeadReader.Accepted(Flatten(p.chunks[..taken])))
  }

  ghost predicate Declines(p: Peer) {
    forall taken: nat :: !Grants(p, taken)
  }

  /** A peer grants the tunnel exactly if its status is 2xx and some read ends between the end of its head and the limit. */
  lemma GrantsIff(p: Peer, e: nat)
    requires p.Replies? && HeadReader.FirstEnd(Flatten(p.chunks), e)
    ensures (exists taken: nat :: Grants(p, taken)) <==> p.granted && HeadReader.SomeReadFits(p.chunks, 65536, e)
  {
    if taken: nat :| Grants(p, taken) {
      HeadReader.AcceptedIff(p.chunks, 65536, taken, HeadReader.Accepted(Flatten(p.chunks[..taken])), e);
    }
    if p.granted && HeadReader.SomeReadFits(p.chunks, 65536, e) {
      var taken := HeadReader.FittingHeadAccepted(p.chunks, 65536, e);
      assert Grants(p, taken);
    }
  }

  /** What a peer that is given up was sent of the CONNECT request. */
  function Asked(p: Peer, request: Text): (sent: Text)
    ensures sent <= request && (p.Absent? ==> sent == []) && (p.Replies? ==> sent == request)
  {
    match p
    case Absent => []
    case Breaks(taken) => Take(request, taken)
    case Replies(_, _) => request
  }

  /** The streams a tunnel conveys: towards the client, what the granting peer sent after the reads of its head. */
  ghost predicate Tunnels(o: Outcome, taken: nat, candidates: seq<Peer>, request: Text, rest: Text) {
    match o.served
    case None =>
      && |o.sent| == |candidates| && o.down.sent == []
      && forall j | 0 <= j < |candidates| :: Declines(candidates[j]) && o.sent[j] == Asked(candidates[j], request)
    case Some(k) =>
      && k < |candidates| && |o.sent| == k + 1 && Grants(candidates[k], taken)
      && (forall j | 0 <= j < k :: Declines(candidates[j]) && o.sent[j] == Asked(candidates[j], request))
      && o.sent[k] == o.up.sent && request <= o.up.sent && ESTABLISHED <= o.down.sent
      && Relays(o.up, o.down, request + rest, ESTABLISHED + Flatten(candidates[k].chunks[taken..]))
  }

  /** A reader's chunks have one verdict only. */
  lemma VerdictUnique(chunks: seq<Text>, limit: nat, s: nat, a: HeadReader.Head, t: nat, b: HeadReader.Head)
    requires HeadReader.Verdict(chunks, limit, s, a) && HeadReader.Verdict(chunks, limit, t, b)
    ensures s == t && a == b
  {
  }

  lemma GrantedOnlyThen(p: Peer, taken: nat, head: HeadReader.Head, t: nat)
    requires p.Replies? && HeadReader.Verdict(p.chunks, HeadReader.HEADER_LIMIT, taken, head)
    ensures Grants(p, t) ==> t == taken && head.Accepted? && p.granted
  {
    if Grants(p, t) {
      VerdictUnique(p.chunks, HeadReader.HEADER_LIMIT, taken, head, t, HeadReader.Accepted(Flatten(p.chunks[..t])));
    }
  }

  /** Reading one peer's reply head: the number of reads, and whether the tunnel is granted. */
  method ReadReply(p: Peer) returns (granted: bool, rest: Text, ghost taken: nat)
    requires p.Replies? && NoEmptyReads(p)
    ensures granted ==> Grants(p, taken) && rest == Flatten(p.chunks[taken..])
    ensures !granted ==> Declines(p)
  {
    var reader := new StreamReader(p.chunks);
    var head: HeadReader.Head;
    head, taken := HeadReader.ReadHttpHead(reader, HeadReader.HEADER_LIMIT);
    granted, rest := head.Accepted? && p.granted, Flatten(reader.chunks);
    if !granted {
      forall t: nat ensures !Grants(p, t) {
        GrantedOnlyThen(p, taken, head, t);
      }
    }
  }

  /** The failover loop; `rest` is what the client sends after its own head was read. */
  method Tunnel(candidates: seq<Peer>, request: Text, rest: Text, schedule: seq<Move>) returns (o: Outcome)
    requires forall j | 0 <= j < |candidates| :: NoEmptyReads(candidates[j])
    ensures exists taken: nat :: Tunnels(o, taken, candidates, request, rest)
  {
    var sent: seq<Text> := [];
    for k := 0 to |candidates|
      invariant |sent| == k
      invariant forall j | 0 <= j < k :: Declines(candidates[j]) && sent[j] == Asked(candidates[j], request)
    {
      var p := candidates[k];
      if p.Replies? {
        assert NoEmptyReads(p);
        var granted, answer, taken := ReadReply(p);
        if granted {
          var up, down := StartRelay(request, rest, ESTABLISHED, answer, schedule);
          o := Outcome(Some(k), sent + [up.sent], up, down);
          assert Tunnels(o, taken, candidates, request, rest);
          return;
        }
      }
      sent := sent + [Asked(p, request)];
    }
    o := Outcome(None, sent, Pipe(rest, [], Running), Pipe([], [], Running));
    assert Tunnels(o, 0, candidates, request, rest);
  }

  /**
   * Reading the client's head and tunnelling together. `requestOf` makes the CONNECT request from
   * the head, or nothing if its target is malformed, and then nobody is dialled. The tunnel conveys
   * what the client sends after the reads of its head.
   */
  method ServeTunnel(client: StreamReader, candidates: seq<Peer>, requestOf: Text -> Option<Text>, schedule: seq<Move>)
    returns (head: HeadReader.Head, o: Outcome, ghost taken: nat)
    requires forall i | 0 <= i < |client.chunks| :: client.chunks[i] != []
    requires forall j | 0 <= j < |candidates| :: NoEmptyReads(candidates[j])
    modifies client
    ensures HeadReader.Verdict(old(client.chunks), 65536, taken, head)
    ensures head.Accepted? && requestOf(head.bytes).Some? ==>
              exists t: nat ::
                Tunnels(o, t, candidates, requestOf(head.bytes).value, Flatten(old(client.chunks)[taken..]))
    ensures !head.Accepted? || requestOf(head.bytes).None? ==> o.sent == [] && o.served.None?
  {
    head, taken := HeadReader.ReadHttpHead(client, HeadReader.HEADER_LIMIT);
    if head.Accepted? {
      var request := requestOf(head.bytes);
      if request.Some? {
        o := Tunnel(candidates, request.value, Flatten(client.chunks), schedule);
        return;
      }
    }
    o := Outcome(None, [], Pipe([], [], Running), Pipe([], [], Running));
  }

  /**
   * What a tunnel loses. Let the client's head end at position e of its stream, and the granting
   * peer's reply head at position f of its own. A direction that ran to EOF has delivered exactly
   * what followed the head if and only if that stream was cut into reads there; otherwise what the
   * last read of the head brought beyond it is dropped.
   */
  lemma TunnelLosslessIff(client: seq<Text>, taken: nat, bytes: Text, e: nat,
                          o: Outcome, t: nat, candidates: seq<Peer>, request: Text, p: Peer, f: nat)
    requires forall i | 0 <= i < |client| :: client[i] != []
    requires HeadReader.Verdict(client, HeadReader.HEADER_LIMIT, taken, HeadReader.Accepted(bytes))
    requires Tunnels(o, t, candidates, request, Flatten(client[taken..]))
    requires o.served.Some? && p == candidates[o.served.value] && NoEmptyReads(p)
    requires HeadReader.FirstEnd(Flatten(client), e) && HeadReader.FirstEnd(Flatten(p.chunks), f)
    ensures o.up.ending.AtEof? ==> (o.up.sent == request + Flatten(client)[e..] <==> HeadReader.CutAt(client, e))
    ensures o.down.ending.AtEof? ==>
              (o.down.sent == ESTABLISHED + Flatten(p.chunks)[f..] <==> HeadReader.CutAt(p.chunks, f))
  {
    TunnelConveys(o, t, candidates, request, Flatten(client[taken..]), p);
    DirectionLosslessIff(o.up, request, client, taken, bytes, e);
    DirectionLosslessIff(o.down, ESTABLISHED, p.chunks, t, Flatten(p.chunks[..t]), f);
  }

  lemma TunnelConveys(o: Outcome, t: nat, candidates: seq<Peer>, request: Text, rest: Text, p: Peer)
    requires Tunnels(o, t, candidates, request, rest) && o.served.Some? && p == candidates[o.served.value]
    ensures Grants(p, t)
    ensures Conveys(o.up, request + rest) && Conveys(o.down, ESTABLISHED + Flatten(p.chunks[t..]))
  {
  }

  /** One direction that ran to EOF, after a first part that the relay was started with. */
  lemma DirectionLosslessIff(p: Pipe, first: Text, chunks: seq<Text>, taken: nat, bytes: Text, e: nat)
    requires forall i | 0 <= i < |chunks| :: chunks[i] != []
    requires HeadReader.Verdict(chunks, HeadReader.HEADER_LIMIT, taken, HeadReader.Accepted(bytes))
    requires HeadReader.FirstEnd(Flatten(chunks), e)
    requires Conveys(p, first + Flatten(chunks[taken..]))
    ensures p.ending.AtEof? ==> (p.sent == first + Flatten(chunks)[e..] <==> HeadReader.CutAt(chunks, e))
  {
    HeadReader.NothingOverReadIff(chunks, HeadReader.HEADER_LIMIT, taken, bytes, e);
    SameTail(first, Flatten(chunks[taken..]), Flatten(chunks)[e..]);
  }

  lemma SameTail(start: Text, a: Text, b: Text)
    ensures start + a == start + b <==> a == b
  {
    assert (start + a)[|start|..] == a && (start + b)[|start|..] == b;
  }
}
