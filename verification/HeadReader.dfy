/** Reading a request head in chunks, up to a limit. */
module HeadReader {
  import opened Bytes

  const HEADER_LIMIT := 65536
  const READ_SIZE := 1024

  datatype Head = Accepted(bytes: Text) | TooLong | Incomplete

  /** A terminator ends just before position e. */
  predicate EndsAt(s: Text, e: nat) {
    && e <= |s|
    && ((e >= 4 && s[e - 4] == CR && s[e - 3] == LF && s[e - 2] == CR && s[e - 1] == LF)
        || (e >= 2 && s[e - 2] == LF && s[e - 1] == LF))
  }

  predicate HeadersComplete(buf: Text) {
    exists e :: 0 <= e <= |buf| && EndsAt(buf, e)
  }

  /** A blank line at position i: CR LF CR LF, or LF LF. */
  predicate BlankLineAt(buf: Text, i: nat) {
    (i + 4 <= |buf| && buf[i..i + 4] == [13, 10, 13, 10]) || (i + 2 <= |buf| && buf[i..i + 2] == [10, 10])
  }

  lemma FourBytes(buf: Text, i: nat)
    requires i + 4 <= |buf|
    ensures buf[i..i + 4] == [13, 10, 13, 10] <==> buf[i] == 13 && buf[i + 1] == 10 && buf[i + 2] == 13 && buf[i + 3] == 10
  {
    var s := buf[i..i + 4];
    assert s[0] == buf[i] && s[1] == buf[i + 1] && s[2] == buf[i + 2] && s[3] == buf[i + 3];
  }

  lemma TwoBytes(buf: Text, i: nat)
    requires i + 2 <= |buf|
    ensures buf[i..i + 2] == [10, 10] <==> buf[i] == 10 && buf[i + 1] == 10
  {
    var s := buf[i..i + 2];
    assert s[0] == buf[i] && s[1] == buf[i + 1];
  }

  lemma BlankLineEnds(buf: Text, i: nat)
    requires BlankLineAt(buf, i)
    ensures HeadersComplete(buf)
  {
    if i + 4 <= |buf| && buf[i..i + 4] == [13, 10, 13, 10] {
      FourBytes(buf, i);
      assert EndsAt(buf, i + 4);
    } else {
      TwoBytes(buf, i);
      assert EndsAt(buf, i + 2);
    }
  }

  lemma EndOfBlankLine(buf: Text, e: nat) returns (i: nat)
    requires EndsAt(buf, e)
    ensures BlankLineAt(buf, i)
  {
    if e >= 2 && buf[e - 2] == LF && buf[e - 1] == LF {
      i := e - 2;
      TwoBytes(buf, i);
    } else {
      i := e - 4;
      FourBytes(buf, i);
    }
  }

  /** A head is complete as soon as it holds a blank line of either kind. */
  lemma HeadersCompleteIff(buf: Text)
    ensures HeadersComplete(buf) <==> exists i: nat :: BlankLineAt(buf, i)
  {
    if HeadersComplete(buf) {
      var e :| 0 <= e <= |buf| && EndsAt(buf, e);
      var i := EndOfBlankLine(buf, e);
    }
    if i: nat :| BlankLineAt(buf, i) {
      BlankLineEnds(buf, i);
    }
  }

  /** What a reader that was given these chunks has consumed after `taken` reads, and its verdict. */
  ghost predicate Verdict(chunks: seq<Text>, limit: nat, taken: nat, head: Head) {
    && taken <= |chunks|
    && (forall k | 0 <= k < taken :: !HeadersComplete(Flatten(chunks[..k])) && |Flatten(chunks[..k])| <= limit)
    && var buf := Flatten(chunks[..taken]);
       match head
       case Accepted(bytes) => bytes == buf && |buf| <= limit && HeadersComplete(buf)
       case TooLong => |buf| > limit
       case Incomplete => |buf| <= limit && taken == |chunks| && !HeadersComplete(buf)
  }

  method ReadHttpHead(reader: StreamReader, limit: nat) returns (head: Head, ghost taken: nat)
    requires forall i | 0 <= i < |reader.chunks| :: reader.chunks[i] != []
    modifies reader
    ensures Verdict(old(reader.chunks), limit, taken, head)
    ensures reader.chunks == old(reader.chunks)[taken..]
  {
    var buf: Text := [];
    ghost var all := reader.chunks;
    taken := 0;
    assert all[..0] == [];
    while !HeadersComplete(buf)
      invariant taken <= |all| && reader.chunks == all[taken..]
      invariant buf == Flatten(all[..taken]) && |buf| <= limit
      invariant forall k | 0 <= k < taken :: !HeadersComplete(Flatten(all[..k])) && |Flatten(all[..k])| <= limit
      decreases |all| - taken
    {
      var chunk := reader.Read();
      if chunk == [] {
        assert taken == |all|;
        break;
      }
      assert all[..taken + 1] == all[..taken] + [all[taken]];
      FlattenConcat(all[..taken], [all[taken]]);
      assert [chunk][..0] == [] && Flatten([chunk]) == chunk;
      buf := buf + chunk;
      taken := taken + 1;
      if |buf| > limit {
        return TooLong, taken;
      }
    }
    if buf == [] || !HeadersComplete(buf) {
      return Incomplete, taken;
    }
    return Accepted(buf), taken;
  }

  // ---- Chunking.

  /** The first terminator of the stream ends at e. */
  ghost predicate FirstEnd(stream: Text, e: nat) {
    EndsAt(stream, e) && forall f: nat | f < e :: !EndsAt(stream, f)
  }

  lemma PrefixComplete(stream: Text, buf: Text, e: nat)
    requires buf <= stream && FirstEnd(stream, e)
    ensures HeadersComplete(buf) <==> e <= |buf|
  {
    if e <= |buf| {
      assert EndsAt(buf, e);
    }
    if HeadersComplete(buf) {
      var f :| 0 <= f <= |buf| && EndsAt(buf, f);
      assert EndsAt(stream, f);
    }
  }

  /** Reads are at most READ_SIZE bytes long and never empty before EOF. */
  ghost predicate Chunked(chunks: seq<Text>) {
    forall i | 0 <= i < |chunks| :: 1 <= |chunks[i]| <= READ_SIZE
  }

  lemma {:induction false} TakenIsPrefix(chunks: seq<Text>, k: nat)
    requires k <= |chunks|
    ensures Flatten(chunks[..k]) <= Flatten(chunks)
  {
    FlattenPrefix(chunks, k);
  }

  /** What the first k reads bring. */
  function ReadLength(chunks: seq<Text>, k: nat): nat
    requires k <= |chunks|
  {
    |Flatten(chunks[..k])|
  }

  lemma OneRead(chunks: seq<Text>, k: nat)
    requires 0 < k <= |chunks|
    ensures ReadLength(chunks, k) == ReadLength(chunks, k - 1) + |chunks[k - 1]|
  {
    assert chunks[..k][..k - 1] == chunks[..k - 1];
  }

  lemma {:induction false} MoreReads(chunks: seq<Text>, j: nat, k: nat)
    requires j <= k <= |chunks|
    ensures ReadLength(chunks, j) <= ReadLength(chunks, k)
    ensures j < k && chunks[k - 1] != [] ==> ReadLength(chunks, j) < ReadLength(chunks, k)
  {
    if j < k {
      OneRead(chunks, k);
      MoreReads(chunks, j, k - 1);
    }
  }

  /** The head is complete after k reads exactly when these reach its end. */
  lemma CompleteAfter(chunks: seq<Text>, e: nat, k: nat)
    requires FirstEnd(Flatten(chunks), e) && k <= |chunks|
    ensures HeadersComplete(Flatten(chunks[..k])) <==> e <= ReadLength(chunks, k)
  {
    TakenIsPrefix(chunks, k);
    PrefixComplete(Flatten(chunks), Flatten(chunks[..k]), e);
  }

  /** Some read ends between the end of the head and the limit. */
  ghost predicate SomeReadFits(chunks: seq<Text>, limit: nat, e: nat) {
    exists k: nat :: k <= |chunks| && e <= ReadLength(chunks, k) <= limit
  }

  /**
   * The exact limit: a head whose first terminator ends at e is accepted if and only if some read
   * ends no earlier than e and no later than the limit; otherwise it is too long.
   */
  lemma AcceptedIff(chunks: seq<Text>, limit: nat, taken: nat, head: Head, e: nat)
    requires Verdict(chunks, limit, taken, head) && FirstEnd(Flatten(chunks), e)
    ensures head.Accepted? <==> SomeReadFits(chunks, limit, e)
    ensures !head.Accepted? ==> head.TooLong?
  {
    assert chunks[..|chunks|] == chunks;
    CompleteAfter(chunks, e, taken);
    if head.Accepted? {
      assert e <= ReadLength(chunks, taken) <= limit;
    } else if SomeReadFits(chunks, limit, e) {
      var k: nat :| k <= |chunks| && e <= ReadLength(chunks, k) <= limit;
      CompleteAfter(chunks, e, k);
      MoreReads(chunks, if k < taken then k else taken, if k < taken then taken else k);
    }
  }

  /** The first read that reaches position e. */
  lemma {:induction false} FirstReach(chunks: seq<Text>, e: nat, n: nat) returns (k: nat)
    requires n <= |chunks| && e <= ReadLength(chunks, n)
    ensures k <= n && e <= ReadLength(chunks, k) && (k > 0 ==> ReadLength(chunks, k - 1) < e)
  {
    if n > 0 && e <= ReadLength(chunks, n - 1) {
      k := FirstReach(chunks, e, n - 1);
    } else {
      k := n;
    }
  }

  /** A stream whose head fits the limit has an accepting verdict. */
  lemma FittingHeadAccepted(chunks: seq<Text>, limit: nat, e: nat) returns (taken: nat)
    requires FirstEnd(Flatten(chunks), e) && SomeReadFits(chunks, limit, e)
    ensures taken <= |chunks| && Verdict(chunks, limit, taken, Accepted(Flatten(chunks[..taken])))
  {
    var n: nat :| n <= |chunks| && e <= ReadLength(chunks, n) <= limit;
    taken := FirstReach(chunks, e, n);
    MoreReads(chunks, taken, n);
    CompleteAfter(chunks, e, taken);
    forall j | 0 <= j < taken ensures !HeadersComplete(Flatten(chunks[..j])) && |Flatten(chunks[..j])| <= limit {
      MoreReads(chunks, j, taken - 1);
      CompleteAfter(chunks, e, j);
      MoreReads(chunks, j, n);
    }
  }

  /**
   * A head whose first terminator ends READ_SIZE - 1 bytes short of the limit is accepted however
   * the stream is cut into reads, one that ends beyond the limit is rejected, and so is a stream
   * without a terminator. An accepted head is the stream up to the end of one read.
   */
  lemma ChunkingRobust(chunks: seq<Text>, limit: nat, taken: nat, head: Head, e: nat)
    requires Chunked(chunks) && Verdict(chunks, limit, taken, head)
    ensures var stream := Flatten(chunks);
            && (head.Accepted? ==> head.bytes <= stream && head.bytes == Flatten(chunks[..taken]))
            && (FirstEnd(stream, e) && e + READ_SIZE - 1 <= limit ==> head.Accepted?)
            && (FirstEnd(stream, e) && e > limit ==> !head.Accepted?)
            && (FirstEnd(stream, e) && head.Accepted? ==> e <= |head.bytes| < e + READ_SIZE)
            && (!HeadersComplete(stream) ==> !head.Accepted?)
  {
    var stream := Flatten(chunks);
    TakenIsPrefix(chunks, taken);
    if head.Accepted? {
      var f :| 0 <= f <= |head.bytes| && EndsAt(head.bytes, f);
      assert EndsAt(stream, f);
    }
    if FirstEnd(stream, e) {
      EndWithinReads(chunks, limit, taken, head, e);
    }
  }

  lemma EndWithinReads(chunks: seq<Text>, limit: nat, taken: nat, head: Head, e: nat)
    requires Chunked(chunks) && Verdict(chunks, limit, taken, head) && FirstEnd(Flatten(chunks), e)
    ensures e + READ_SIZE - 1 <= limit ==> head.Accepted?
    ensures e > limit ==> !head.Accepted?
    ensures head.Accepted? ==> e <= |head.bytes| < e + READ_SIZE
  {
    AcceptedIff(chunks, limit, taken, head, e);
    assert chunks[..|chunks|] == chunks;
    var k := FirstReach(chunks, e, |chunks|);
    if k > 0 {
      OneRead(chunks, k);
    }
    assert ReadLength(chunks, k) < e + READ_SIZE;
    if head.Accepted? {
      CompleteAfter(chunks, e, taken);
      CompleteAfter(chunks, e, k);
      assert taken <= k;
      MoreReads(chunks, taken, k);
    }
  }

  /** The program's limits: in reads of 1 to 1024 bytes, a head that ends by byte 64513 is accepted, and none beyond byte 65536. */
  lemma HeadLimits(chunks: seq<Text>, taken: nat, head: Head, e: nat)
    requires forall i | 0 <= i < |chunks| :: 1 <= |chunks[i]| <= 1024
    requires Verdict(chunks, HEADER_LIMIT, taken, head) && FirstEnd(Flatten(chunks), e)
    ensures e <= 64513 ==> head.Accepted?
    ensures e > 65536 ==> head.TooLong?
  {
    EndWithinReads(chunks, HEADER_LIMIT, taken, head, e);
    AcceptedIff(chunks, HEADER_LIMIT, taken, head, e);
  }

  // ---- What the read that completed the head brought with it.

  /** Some read ends exactly where the head does. */
  ghost predicate CutAt(chunks: seq<Text>, e: nat) {
    exists k: nat :: k <= |chunks| && ReadLength(chunks, k) == e
  }

  /**
   * After an accepted head the stream goes on right behind its first terminator if and only if
   * the stream was cut there; whatever else the last read brought is already taken.
   */
  lemma NothingOverReadIff(chunks: seq<Text>, limit: nat, taken: nat, bytes: Text, e: nat)
    requires forall i | 0 <= i < |chunks| :: chunks[i] != []
    requires Verdict(chunks, limit, taken, Accepted(bytes)) && FirstEnd(Flatten(chunks), e)
    ensures Flatten(chunks[taken..]) == Flatten(chunks)[e..] <==> CutAt(chunks, e)
  {
    var stream, head, tail := Flatten(chunks), Flatten(chunks[..taken]), Flatten(chunks[taken..]);
    FlattenPrefix(chunks, taken);
    CompleteAfter(chunks, e, taken);
    assert stream[|head|..] == tail && |stream[e..]| == |stream| - e;
    if CutAt(chunks, e) {
      var k: nat :| k <= |chunks| && ReadLength(chunks, k) == e;
      CompleteAfter(chunks, e, k);
      MoreReads(chunks, taken, k);
      assert ReadLength(chunks, taken) == e;
    } else {
      assert ReadLength(chunks, taken) != e;
    }
  }

  // ---- The bound is tight.

  /** The same bytes, read one at a time. */
  function Singles(s: Text): (chunks: seq<Text>)
    ensures |chunks| == |s| && forall i | 0 <= i < |s| :: chunks[i] == [s[i]]
  {
    seq(|s|, i requires 0 <= i < |s| => [s[i]])
  }

  lemma {:induction false} SinglesFlatten(s: Text)
    ensures Flatten(Singles(s)) == s
  {
    if s != [] {
      var n := |s| - 1;
      SinglesFlatten(s[..n]);
      assert Singles(s)[..n] == Singles(s[..n]);
    }
  }

  function Zeros(n: nat): Text {
    seq(n, _ => 0)
  }

  /** A stream whose first terminator ends at e, with READ_SIZE - 1 bytes after it. */
  function Stream(e: nat): Text
    requires e >= 2
  {
    Zeros(e - 2) + [LF, LF] + Zeros(READ_SIZE - 1)
  }

  lemma StreamEnds(e: nat)
    requires e >= 2
    ensures FirstEnd(Stream(e), e)
  {
    var s := Stream(e);
    assert forall i | 0 <= i < e - 2 :: s[i] == 0;
  }

  lemma SinglesPrefix(s: Text, k: nat)
    requires k <= |s|
    ensures Flatten(Singles(s)[..k]) == s[..k]
  {
    assert Singles(s)[..k] == Singles(s[..k]);
    SinglesFlatten(s[..k]);
  }

  /** Before position e the stream is incomplete, and its first e bytes are complete. */
  lemma StreamCompletes(e: nat, k: nat)
    requires 2 <= e && k <= |Stream(e)|
    ensures HeadersComplete(Stream(e)[..k]) <==> e <= k
  {
    StreamEnds(e);
    PrefixComplete(Stream(e), Stream(e)[..k], e);
  }

  lemma FineAccepted(limit: nat, e: nat)
    requires 2 <= e <= limit
    ensures Verdict(Singles(Stream(e)), limit, e, Accepted(Stream(e)[..e]))
  {
    var s := Stream(e);
    forall k | 0 <= k <= e ensures Flatten(Singles(s)[..k]) == s[..k] && (HeadersComplete(s[..k]) <==> k == e) {
      SinglesPrefix(s, k);
      StreamCompletes(e, k);
    }
  }

  /** The same stream, whose last read begins at the terminator's last byte. */
  function Coarse(e: nat): seq<Text>
    requires e >= 2
  {
    Singles(Stream(e)[..e - 1]) + [Stream(e)[e - 1..]]
  }

  lemma SinglesThen(start: Text, rest: Text, k: nat)
    requires k <= |start| + 1
    ensures Flatten((Singles(start) + [rest])[..k]) == if k <= |start| then start[..k] else start + rest
  {
    var chunks := Singles(start) + [rest];
    if k <= |start| {
      assert chunks[..k] == Singles(start)[..k];
      SinglesPrefix(start, k);
    } else {
      assert chunks[..k] == chunks && chunks[..k - 1] == Singles(start);
      SinglesFlatten(start);
    }
  }

  lemma CoarsePrefix(e: nat, k: nat)
    requires 2 <= e && k <= e
    ensures Flatten(Coarse(e)[..k]) == if k < e then Stream(e)[..k] else Stream(e)
  {
    var s := Stream(e);
    SinglesThen(s[..e - 1], s[e - 1..], k);
    assert k < e ==> s[..e - 1][..k] == s[..k];
    assert s[..e - 1] + s[e - 1..] == s;
  }

  lemma CoarseRejected(limit: nat, e: nat)
    requires 2 <= e <= limit < e + READ_SIZE - 1
    ensures Verdict(Coarse(e), limit, e, TooLong)
  {
    forall k | 0 <= k < e ensures Flatten(Coarse(e)[..k]) == Stream(e)[..k] && !HeadersComplete(Stream(e)[..k]) {
      CoarsePrefix(e, k);
      StreamCompletes(e, k);
    }
    CoarsePrefix(e, e);
  }

  /**
   * The bound cannot be improved: for every position e within READ_SIZE - 2 bytes of the limit, one
   * stream with its first terminator there is accepted under one chunking and rejected under another.
   */
  lemma BoundIsTight(limit: nat, e: nat)
    requires 2 <= e <= limit < e + READ_SIZE - 1
    ensures var fine, coarse := Singles(Stream(e)), Coarse(e);
            && Chunked(fine) && Chunked(coarse) && Flatten(fine) == Flatten(coarse) == Stream(e) && FirstEnd(Stream(e), e)
            && Verdict(fine, limit, e, Accepted(Stream(e)[..e]))
            && Verdict(coarse, limit, e, TooLong)
  {
    StreamEnds(e);
    SinglesFlatten(Stream(e));
    CoarsePrefix(e, e);
    assert Coarse(e)[..e] == Coarse(e);
    FineAccepted(limit, e);
    CoarseRejected(limit, e);
  }
}
