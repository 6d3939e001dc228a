/**
 * Packets over a byte stream, as src/ld_net.c sends and receives them: four bytes of length, most
 * significant first, then the packet. What read and write do is a parameter: the results of the
 * calls, in order.
 */
module Frames {
  import opened Common

  type Bytes = seq<byte>

  const MaxPacket: nat := 8192
  const Word: nat := 0x1_0000_0000

  /** htonl, and the conversion of a size_t to uint32_t before it. */
  function Header(n: nat): (h: Bytes)
    ensures |h| == 4
  {
    [n / 256 / 256 / 256 % 256, n / 256 / 256 % 256, n / 256 % 256, n % 256]
  }

  /** ntohl of the first four bytes. */
  function Length(s: Bytes): (n: nat)
    requires |s| >= 4
    ensures n < Word
  {
    var a: int, b: int, c: int, d: int := s[0], s[1], s[2], s[3];
    ((a * 256 + b) * 256 + c) * 256 + d
  }

  lemma LengthOfHeader(n: nat, t: Bytes)
    requires n < Word
    ensures Length(Header(n) + t) == n
  {
    var h := Header(n) + t;
    var b: nat, c: nat := n / 256 / 256, n / 256;
    assert h[0] == b / 256 && h[1] == b % 256 && h[2] == c % 256 && h[3] == n % 256;
  }

  lemma HeaderOfLength(s: Bytes)
    requires |s| >= 4
    ensures Header(Length(s)) == s[..4]
  {
    var a: int, b: int, c: int, d: int := s[0], s[1], s[2], s[3];
    var n := Length(s);
    assert n % 256 == d && n / 256 == (a * 256 + b) * 256 + c;
    assert n / 256 / 256 == a * 256 + b;
  }

  /** The most significant byte comes first: byte i counts 256^(3 - i), as in a base 256 numeral. */
  function Numeral(s: Bytes): nat {
    if s == [] then 0 else 256 * Numeral(s[..|s| - 1]) + s[|s| - 1]
  }

  lemma {:induction false} LengthIsNumeral(s: Bytes)
    requires |s| >= 4
    ensures Length(s) == Numeral(s[..4])
  {
    var h := s[..4];
    assert h[..3][..2] == h[..2] && h[..2][..1] == h[..1] && h[..1][..0] == [];
    assert Numeral(h[..1]) == h[0] && Numeral(h[..2]) == 256 * Numeral(h[..1]) + h[1];
    assert Numeral(h[..3]) == 256 * Numeral(h[..2]) + h[2] && Numeral(h) == 256 * Numeral(h[..3]) + h[3];
  }

  /** A header is the numeral of the length, cut to a 32-bit word. */
  lemma {:induction false} HeaderIsNumeral(n: nat)
    requires n < Word
    ensures Numeral(Header(n)) == n
  {
    LengthOfHeader(n, []);
    assert Header(n) + [] == Header(n) == Header(n)[..4];
    LengthIsNumeral(Header(n));
  }

  function Frame(p: Bytes): Bytes {
    Header(|p|) + p
  }

  /** The byte stream that carries the packets ps. */
  function Stream(ps: seq<Bytes>): Bytes {
    if ps == [] then [] else Frame(ps[0]) + Stream(ps[1..])
  }

  lemma {:induction false} StreamConcat(ps: seq<Bytes>, qs: seq<Bytes>)
    ensures Stream(ps + qs) == Stream(ps) + Stream(qs)
  {
    if ps == [] {
      assert ps + qs == qs;
    } else {
      assert (ps + qs)[1..] == ps[1..] + qs;
      StreamConcat(ps[1..], qs);
    }
  }

  datatype End = Waiting | Oversized | Rejected

  /** What became of a stream: the packets given to the handler, why no more were, and the bytes not used. */
  datatype Reception = Reception(packets: seq<Bytes>, end: End, rest: Bytes)

  /** The handler sees what it was given before, and may refuse a packet. */
  type Handler = (seq<Bytes>, Bytes) -> bool

  /** Cuts a whole stream into packets, after those in `sofar`. */
  function Receive(s: Bytes, sofar: seq<Bytes>, refuses: Handler): Reception
    decreases |s|
  {
    if |s| < 4 then Reception(sofar, Waiting, s)
    else
      var n := Length(s);
      if n == 0 then Receive(s[4..], sofar, refuses)
      else if n > MaxPacket then Reception(sofar, Oversized, s)
      else if |s| < 4 + n then Reception(sofar, Waiting, s)
      else if refuses(sofar, s[4..4 + n]) then Reception(sofar + [s[4..4 + n]], Rejected, s)
      else Receive(s[4 + n..], sofar + [s[4..4 + n]], refuses)
  }

  /** What the receiver of the packets ps is to see: neither bytes nor lengths are mentioned but for the two limits. */
  function Expected(ps: seq<Bytes>, sofar: seq<Bytes>, refuses: Handler): (seq<Bytes>, End) {
    if ps == [] then (sofar, Waiting)
    else if ps[0] == [] then Expected(ps[1..], sofar, refuses)
    else if |ps[0]| > MaxPacket then (sofar, Oversized)
    else if refuses(sofar, ps[0]) then (sofar + [ps[0]], Rejected)
    else Expected(ps[1..], sofar + [ps[0]], refuses)
  }

  /** A frame at the front of the stream. */
  lemma FrameAtFront(p: Bytes, t: Bytes)
    requires |p| < Word
    ensures Length(Frame(p) + t) == |p| && (Frame(p) + t)[4..4 + |p|] == p && (Frame(p) + t)[4 + |p|..] == t
  {
    assert Frame(p) + t == Header(|p|) + (p + t);
    LengthOfHeader(|p|, p + t);
  }

  /** Cutting the stream recovers the packets, the reverse of framing them. */
  lemma {:induction false} StreamReceived(ps: seq<Bytes>, sofar: seq<Bytes>, refuses: Handler)
    requires forall p :: p in ps ==> |p| < Word
    ensures var r := Receive(Stream(ps), sofar, refuses); (r.packets, r.end) == Expected(ps, sofar, refuses)
    ensures Expected(ps, sofar, refuses).1 == Waiting ==> Receive(Stream(ps), sofar, refuses).rest == []
  {
    if ps != [] {
      var p, t := ps[0], Stream(ps[1..]);
      FrameAtFront(p, t);
      if p == [] {
        StreamReceived(ps[1..], sofar, refuses);
      } else if |p| <= MaxPacket && !refuses(sofar, p) {
        StreamReceived(ps[1..], sofar + [p], refuses);
      }
    }
  }

  /** More bytes take up where the receiver stood, and after an error change nothing. */
  lemma {:induction false} Continues(s: Bytes, t: Bytes, sofar: seq<Bytes>, refuses: Handler)
    ensures var r := Receive(s, sofar, refuses);
      if r.end == Waiting then Receive(s + t, sofar, refuses) == Receive(r.rest + t, r.packets, refuses)
      else Receive(s + t, sofar, refuses) == Reception(r.packets, r.end, r.rest + t)
    decreases |s|
  {
    if |s| >= 4 {
      var n := Length(s);
      assert Length(s + t) == n;
      if n == 0 {
        assert (s + t)[4..] == s[4..] + t;
        Continues(s[4..], t, sofar, refuses);
      } else if n <= MaxPacket && |s| >= 4 + n {
        assert (s + t)[4..4 + n] == s[4..4 + n] && (s + t)[4 + n..] == s[4 + n..] + t;
        if !refuses(sofar, s[4..4 + n]) {
          Continues(s[4 + n..], t, sofar + [s[4..4 + n]], refuses);
        }
      }
    }
  }

  /** What was delivered stays delivered. */
  lemma {:induction false} OnlyGrows(s: Bytes, sofar: seq<Bytes>, refuses: Handler)
    ensures sofar <= Receive(s, sofar, refuses).packets
    decreases |s|
  {
    if |s| >= 4 {
      var n := Length(s);
      if n == 0 {
        OnlyGrows(s[4..], sofar, refuses);
      } else if n <= MaxPacket && |s| >= 4 + n && !refuses(sofar, s[4..4 + n]) {
        OnlyGrows(s[4 + n..], sofar + [s[4..4 + n]], refuses);
      }
    }
  }

  /** At any moment the handler has seen a first part of what it is to see, and all of it once every byte is there. */
  lemma {:induction false} EndToEnd(ps: seq<Bytes>, seen: Bytes, under: Bytes, refuses: Handler)
    requires (forall p :: p in ps ==> |p| < Word) && seen + under == Stream(ps)
    ensures var r := Receive(seen, [], refuses); var e := Expected(ps, [], refuses);
      && r.packets <= e.0 && (r.end != Waiting ==> (r.packets, r.end) == e)
      && (under == [] ==> (r.packets, r.end) == e)
  {
    var r := Receive(seen, [], refuses);
    Continues(seen, under, [], refuses);
    StreamReceived(ps, [], refuses);
    OnlyGrows(r.rest + under, r.packets, refuses);
    if under == [] { assert seen == Stream(ps); }
  }

  /** With a handler that refuses nothing: the packets of 1 to 8192 bytes before the first larger one. */
  function Fitting(ps: seq<Bytes>): seq<Bytes> {
    if ps == [] || |ps[0]| > MaxPacket then []
    else (if ps[0] == [] then [] else [ps[0]]) + Fitting(ps[1..])
  }

  lemma {:induction false} WillingHandler(ps: seq<Bytes>, sofar: seq<Bytes>, refuses: Handler)
    requires forall d, p :: !refuses(d, p)
    ensures Expected(ps, sofar, refuses).0 == sofar + Fitting(ps)
    ensures Expected(ps, sofar, refuses).1 == Oversized <==> exists p :: p in ps && |p| > MaxPacket
  {
    if ps != [] && |ps[0]| <= MaxPacket {
      WillingHandler(ps[1..], if ps[0] == [] then sofar else sofar + [ps[0]], refuses);
    }
  }
}

module Framing {
  import opened Wrappers
  import opened Common
  import opened Frames

  datatype Status = Ok | Again | Failed

  /** What one call of write does: takes some of the bytes, or none for one of three reasons. */
  datatype Writing = Took(n: nat) | WouldBlock | Interrupted | Broken

  lemma Moved(wire: Bytes, b: Bytes, offset: nat, n: nat, t: Bytes)
    requires offset + n <= |b|
    ensures wire + b[offset..offset + n] + (b[offset + n..] + t) == wire + (b[offset..] + t)
    ensures offset + n == |b| ==> wire + b[offset..offset + n] + ([] + t) == wire + (b[offset..] + t)
  {
    assert b[offset..] == b[offset..offset + n] + b[offset + n..];
  }

  lemma SliceOf(b: Bytes, offset: nat, n: nat)
    requires offset + n <= |b|
    ensures b[offset..][..n] == b[offset..offset + n]
  {
  }

  lemma {:induction false} Queued(wire: Bytes, b: Bytes, queue: seq<Bytes>, packets: seq<Bytes>, p: Bytes)
    requires wire + (b + Stream(queue)) == Stream(packets)
    ensures wire + (b + Stream(queue + [p])) == Stream(packets + [p])
  {
    StreamConcat(queue, [p]);
    StreamConcat(packets, [p]);
    Regrouped(wire, b, Stream(queue), Stream([p]));
  }

  lemma Regrouped(a: Bytes, b: Bytes, c: Bytes, d: Bytes)
    ensures a + (b + (c + d)) == a + (b + c) + d
  {
  }

  /** The bytes write takes of `left` offered ones. */
  function Accepted(w: Writing, left: nat): (n: nat)
    ensures n <= left
  {
    if w.Took? then (if w.n < left then w.n else left) else 0
  }

  ghost function Framed(ps: seq<Bytes>): (r: seq<Bytes>) {
    if ps == [] then [] else [Frame(ps[0])] + Framed(ps[1..])
  }

  function Joined(bufs: seq<Bytes>): Bytes {
    if bufs == [] then [] else bufs[0] + Joined(bufs[1..])
  }

  lemma {:induction false} FramedJoined(ps: seq<Bytes>)
    ensures Joined(Framed(ps)) == Stream(ps) && forall b :: b in Framed(ps) ==> b != []
  {
    if ps != [] { FramedJoined(ps[1..]); }
  }

  /** The number of the first k results that took bytes. */
  ghost function Takes(writes: seq<Writing>, k: nat): (n: nat)
    requires k <= |writes|
    ensures n <= k
  {
    if k == 0 then 0 else Takes(writes, k - 1) + if writes[k - 1].Took? then 1 else 0
  }

  /** Result k lets the loop go on: it takes a whole buffer, the one after those taken before, or is an interrupt. */
  ghost predicate Whole(bufs: seq<Bytes>, writes: seq<Writing>, k: nat)
    requires k < |writes|
  {
    && Takes(writes, k) < |bufs|
    && (writes[k] == Interrupted || (writes[k].Took? && writes[k].n >= |bufs[Takes(writes, k)]|))
  }

  /** Result k ends the call with bytes left: it would block, or takes a part of the buffer. */
  ghost predicate Cut(bufs: seq<Bytes>, writes: seq<Writing>, k: nat)
    requires k < |writes|
  {
    && Takes(writes, k) < |bufs|
    && (writes[k] == WouldBlock || (writes[k].Took? && 0 < writes[k].n < |bufs[Takes(writes, k)]|))
  }

  ghost predicate Going(bufs: seq<Bytes>, writes: seq<Writing>, used: nat) {
    && used <= |writes| && Takes(writes, used) <= |bufs| && (forall b :: b in bufs ==> b != [])
    && (forall k :: 0 <= k < used ==> Whole(bufs, writes, k)) && (used > 0 ==> Takes(writes, used - 1) < |bufs|)
  }

  /** How a call of write_packet with these buffers ends, and what it leaves. */
  ghost predicate Outcome(bufs: seq<Bytes>, writes: seq<Writing>, used: nat, r: Status, left: seq<Bytes>) {
    && used <= |writes| && (forall k :: 0 <= k < used - 1 ==> Whole(bufs, writes, k))
    && (r == Failed <==> used > 0 && (writes[used - 1] == Took(0) || writes[used - 1] == Broken))
    && (r == Again <==>
        && left != []
        && if used > 0 && Cut(bufs, writes, used - 1) then true
           else used == |writes| && (used > 0 ==> Whole(bufs, writes, used - 1)))
    && (r == Status.Ok <==> left == [])
    && (used > 0 ==> Takes(writes, used - 1) < |bufs|)
    && left == Rest(bufs, writes, used)
  }

  /** The buffers left when the first results took theirs and the last perhaps a part of one. */
  ghost function Rest(bufs: seq<Bytes>, writes: seq<Writing>, used: nat): seq<Bytes>
    requires used <= |writes| && (used > 0 ==> Takes(writes, used - 1) < |bufs|)
  {
    if used == 0 then bufs else After(bufs[Takes(writes, used - 1)..], writes[used - 1])
  }

  /** The buffers after one call of write, which is offered the first. */
  ghost function After(bufs: seq<Bytes>, w: Writing): seq<Bytes>
    requires bufs != []
  {
    var n := Accepted(w, |bufs[0]|);
    if n == |bufs[0]| then bufs[1..] else [bufs[0][n..]] + bufs[1..]
  }

  lemma {:induction false} Pushed(bufs: seq<Bytes>, writes: seq<Writing>, used: nat, before: seq<Bytes>,
                                  after: seq<Bytes>, r: Option<Status>)
    requires Going(bufs, writes, used) && used < |writes|
    requires before == bufs[Takes(writes, used)..] && before != [] && after == After(before, writes[used])
    requires var w := writes[used]; var n := Accepted(w, |before[0]|);
      && (r == None <==> n == |before[0]| || w == Interrupted) && (r == Some(Failed) <==> w == Took(0) || w == Broken)
      && r != Some(Status.Ok)
    ensures r == None ==> Going(bufs, writes, used + 1) && after == bufs[Takes(writes, used + 1)..]
    ensures r.Some? ==> Outcome(bufs, writes, used + 1, r.value, after)
  {
    assert before[0] == bufs[Takes(writes, used)] && before[0] in bufs;
    assert before[1..] == bufs[Takes(writes, used) + 1..];
    if writes[used] == Interrupted { assert after == before; }
  }

  lemma {:induction false} Pauses(bufs: seq<Bytes>, writes: seq<Writing>, used: nat)
    requires Going(bufs, writes, used)
    ensures Rest(bufs, writes, used) == bufs[Takes(writes, used)..]
    ensures Takes(writes, used) == |bufs| ==> Outcome(bufs, writes, used, Status.Ok, [])
    ensures Takes(writes, used) < |bufs| && used == |writes| ==>
      Outcome(bufs, writes, used, Again, bufs[Takes(writes, used)..])
  {
    if used > 0 {
      assert Whole(bufs, writes, used - 1);
      var rest := bufs[Takes(writes, used - 1)..];
      assert rest[0] == bufs[Takes(writes, used - 1)] && rest[0] in bufs;
      assert rest[1..] == bufs[Takes(writes, used - 1) + 1..];
      if writes[used - 1] == Interrupted { assert After(rest, writes[used - 1]) == rest; }
    }
  }

  /** If every result takes at least the buffer it is offered, all is written, one call of write for each buffer. */
  lemma {:induction false} AllTaken(bufs: seq<Bytes>, writes: seq<Writing>, used: nat, r: Status, left: seq<Bytes>)
    requires Outcome(bufs, writes, used, r, left) && |writes| >= |bufs| && forall b :: b in bufs ==> b != []
    requires forall k :: 0 <= k < |bufs| ==> writes[k].Took? && writes[k].n >= |bufs[k]|
    ensures r == Status.Ok && used == |bufs| && left == []
  {
    if used > 0 {
      AllTakes(bufs, writes, used - 1);
      var rest := bufs[used - 1..];
      assert bufs[used - 1] in bufs && rest[0] == bufs[used - 1];
    }
  }

  lemma {:induction false} AllTakes(bufs: seq<Bytes>, writes: seq<Writing>, k: nat)
    requires k <= |writes| && |writes| >= |bufs| && Takes(writes, k) < |bufs|
    requires forall k :: 0 <= k < |bufs| ==> writes[k].Took?
    ensures k < |bufs| && Takes(writes, k) == k
  {
    if k > 0 {
      AllTakes(bufs, writes, k - 1);
    }
  }

  class Sender {
    var queue: seq<Bytes>
    var current: Option<Bytes>
    var offset: nat
    /** What write has taken. */
    var wire: Bytes
    /** The packets queued from the start. */
    ghost var packets: seq<Bytes>

    ghost function Pending(): Bytes
      reads this
      requires current != None ==> offset <= |current.value|
    {
      (if current == None then [] else current.value[offset..]) + Stream(queue)
    }

    /** What is still to be written, a buffer for each packet; of the current one the rest. */
    ghost function Buffers(): seq<Bytes>
      reads this
      requires current != None ==> offset <= |current.value|
    {
      (if current == None then [] else [current.value[offset..]]) + Framed(queue)
    }

    /** No byte is lost, repeated or moved. */
    ghost predicate Valid()
      reads this
    {
      && (if current == None then offset == 0 else offset < |current.value|)
      && wire + Pending() == Stream(packets)
    }

    constructor ()
      ensures Valid() && packets == [] && wire == []
    {
      queue, current, offset, wire, packets := [], None, 0, [], [];
    }

    /** defalut_send_pkt. */
    method Send(p: Bytes)
      requires Valid()
      modifies this
      ensures Valid() && packets == old(packets) + [p] && wire == old(wire)
    {
      Queued(wire, if current == None then [] else current.value[offset..], queue, packets, p);
      queue := queue + [p];
      packets := packets + [p];
    }

    /** One call of write with what is left of the current buffer; None to go on with the loop. */
    method Push(w: Writing) returns (r: Option<Status>)
      requires Valid() && current != None
      modifies this`current, this`offset, this`wire
      ensures Valid() && r != Some(Status.Ok) && old(wire) <= wire
      ensures var left := old(current.value[offset..]); var n := Accepted(w, |left|);
        && wire == old(wire) + left[..n] && (n == |left| <==> current == None)
        && (r == None <==> n == |left| || w == Interrupted) && (r == Some(Failed) <==> w == Took(0) || w == Broken)
      ensures Buffers() == After(old(Buffers()), w)
    {
      match w
      case Took(k) =>
        if k == 0 {
          return Some(Failed);
        }
        var left := |current.value| - offset;
        Advance(if k < left then k else left);
        return if current == None then None else Some(Again);
      case WouldBlock => return Some(Again);
      case Interrupted => return None;
      case Broken => return Some(Failed);
    }

    /** n bytes were written; the buffer goes when all of it is. */
    method Advance(n: nat)
      requires Valid() && current != None && n <= |current.value| - offset
      modifies this`current, this`offset, this`wire
      ensures Valid() && wire == old(wire) + old(current.value[offset..])[..n]
      ensures current == None <==> n == old(|current.value| - offset)
      ensures current != None ==> current == old(current) && offset == old(offset) + n
    {
      Moved(wire, current.value, offset, n, Stream(queue));
      SliceOf(current.value, offset, n);
      wire := wire + current.value[offset..offset + n];
      offset := offset + n;
      if offset >= |current.value| {
        current, offset := None, 0;
      }
    }

    method NextPacket()
      requires Valid() && current == None && queue != []
      modifies this`current, this`queue
      ensures Valid() && current != None && queue == old(queue)[1..] && Buffers() == old(Buffers())
    {
      var p := queue[0];
      current, queue := Some(Header(|p|) + p), queue[1..];
      assert current.value[0..] == Frame(p);
    }

    /**
     * write_packet: OK means that everything queued is on the wire, and only then. The first `used` results
     * are consumed; past the end of the list a write would block.
     */
    method WritePacket(writes: seq<Writing>) returns (r: Status, used: nat)
      requires Valid()
      modifies this`queue, this`current, this`offset, this`wire
      ensures Valid() && old(wire) <= wire
      ensures r == Status.Ok <==> wire == Stream(packets)
      ensures Outcome(old(Buffers()), writes, used, r, Buffers())
    {
      ghost var bufs, sent := Buffers(), wire;
      AllPending();
      used := 0;
      while true
        invariant Ongoing(bufs, sent, writes, used)
        decreases |writes| - used
      {
        Halts(bufs, sent, writes, used);
        if current == None {
          if queue == [] {
            return Status.Ok, used;
          }
          Fetch(bufs, sent, writes, used);
        }
        if used == |writes| {
          return Again, used;
        }
        var s := WriteNext(writes[used], bufs, sent, writes, used);
        used := used + 1;
        if s != None {
          return s.value, used;
        }
      }
    }

    /** Of the buffers and the wire at the start of a call, what its first `used` results have made. */
    ghost predicate Ongoing(bufs: seq<Bytes>, sent: Bytes, writes: seq<Writing>, used: nat)
      reads this
    {
      && Valid() && sent <= wire && Going(bufs, writes, used) && Buffers() == bufs[Takes(writes, used)..]
    }

    /** How the call ends. */
    ghost predicate Ended(bufs: seq<Bytes>, sent: Bytes, writes: seq<Writing>, used: nat, r: Status)
      reads this
    {
      && Valid() && sent <= wire && (r == Status.Ok <==> wire == Stream(packets))
      && Outcome(bufs, writes, used, r, Buffers())
    }

    lemma Halts(bufs: seq<Bytes>, sent: Bytes, writes: seq<Writing>, used: nat)
      requires Ongoing(bufs, sent, writes, used)
      ensures Buffers() == [] ==> Ended(bufs, sent, writes, used, Status.Ok)
      ensures Buffers() != [] && used == |writes| ==> Ended(bufs, sent, writes, used, Again)
    {
      Unsent();
      Pauses(bufs, writes, used);
    }

    method Fetch(ghost bufs: seq<Bytes>, ghost sent: Bytes, ghost writes: seq<Writing>, ghost used: nat)
      requires Ongoing(bufs, sent, writes, used) && current == None && queue != []
      modifies this`current, this`queue
      ensures Ongoing(bufs, sent, writes, used) && current != None
      ensures used == |writes| ==> Ended(bufs, sent, writes, used, Again)
    {
      NextPacket();
      Halts(bufs, sent, writes, used);
    }

    method WriteNext(w: Writing, ghost bufs: seq<Bytes>, ghost sent: Bytes, ghost writes: seq<Writing>, ghost used: nat)
      returns (r: Option<Status>)
      requires Ongoing(bufs, sent, writes, used) && current != None && used < |writes| && w == writes[used]
      modifies this`current, this`offset, this`wire
      ensures r == None ==> Ongoing(bufs, sent, writes, used + 1)
      ensures r.Some? ==> Ended(bufs, sent, writes, used + 1, r.value)
    {
      ghost var before := Buffers();
      r := Push(w);
      Pushed(bufs, writes, used, before, Buffers(), r);
      Unsent();
    }

    /** The buffers hold the bytes that are not on the wire, and none is empty. */
    lemma AllPending()
      requires Valid()
      ensures wire + Joined(Buffers()) == Stream(packets) && forall b :: b in Buffers() ==> b != []
    {
      FramedJoined(queue);
      if current == None {
        assert Buffers() == Framed(queue);
      } else {
        assert Buffers()[0] == current.value[offset..] && Buffers()[1..] == Framed(queue);
      }
    }

    lemma Unsent()
      requires Valid()
      ensures wire == Stream(packets) <==> Buffers() == []
    {
    }
  }

  /** What one call of read does. Data holds 1 to 8192 bytes, the size of the caller's buffer. */
  datatype Reading = Data(bytes: Bytes) | Closed | NothingYet | Signal | ReadError

  ghost predicate Readings(rs: seq<Reading>) {
    forall k :: 0 <= k < |rs| && rs[k].Data? ==> 1 <= |rs[k].bytes| <= MaxPacket
  }

  predicate LastFails(rs: seq<Reading>, used: nat) {
    0 < used <= |rs| && (rs[used - 1].Closed? || rs[used - 1].ReadError?)
  }

  ghost predicate HasData(rs: seq<Reading>, k: nat)
    requires k <= |rs|
  {
    exists j :: 0 <= j < k && rs[j].Data?
  }

  /** After result k the loop goes on: it is data, or a signal before any data. */
  ghost predicate ReadsOn(rs: seq<Reading>, k: nat)
    requires k < |rs|
  {
    rs[k].Data? || (rs[k].Signal? && !HasData(rs, k))
  }

  /** Result k ends the loop without an error: nothing more to read, or a signal after data. */
  ghost predicate Rests(rs: seq<Reading>, k: nat)
    requires k < |rs|
  {
    rs[k].NothingYet? || (rs[k].Signal? && HasData(rs, k))
  }

  /** After each of the first n results the loop goes on, and the bytes so far leave the receiver ready for more. */
  ghost predicate ReadOn(rs: seq<Reading>, before: Bytes, n: nat, refuses: Handler) {
    n <= |rs| &&
    forall k :: 0 <= k < n ==> ReadsOn(rs, k) && Receive(before + BytesOf(rs[..k + 1]), [], refuses).end == Waiting
  }

  lemma OneRead(rs: seq<Reading>, before: Bytes, n: nat, refuses: Handler)
    requires n < |rs| && ReadOn(rs, before, n, refuses)
    ensures HasData(rs, n + 1) <==> HasData(rs, n) || rs[n].Data?
    ensures ReadsOn(rs, n) && Receive(before + BytesOf(rs[..n + 1]), [], refuses).end == Waiting
            ==> ReadOn(rs, before, n + 1, refuses)
  {
  }

  lemma NotFailed(rs: seq<Reading>, before: Bytes, n: nat, refuses: Handler)
    requires ReadOn(rs, before, n, refuses)
    ensures !LastFails(rs, n)
  {
    if n > 0 { assert ReadsOn(rs, n - 1); }
  }

  function BytesOf(rs: seq<Reading>): Bytes {
    if rs == [] then [] else BytesOf(rs[..|rs| - 1]) + Chunk(rs[|rs| - 1])
  }

  function Chunk(r: Reading): Bytes {
    if r.Data? then r.bytes else []
  }

  lemma OneMore(rs: seq<Reading>, k: nat, before: Bytes)
    requires k < |rs|
    ensures before + BytesOf(rs[..k + 1]) == before + BytesOf(rs[..k]) + Chunk(rs[k])
  {
    assert rs[..k + 1][..k] == rs[..k];
  }

  /** process_complete_packets takes the front of its buffer by the rules of Receive, one packet at a time. */
  lemma {:induction false} ReceiveHeader(buf: Bytes, sofar: seq<Bytes>, refuses: Handler)
    requires |buf| >= 4
    ensures Length(buf) == 0 ==> Receive(buf, sofar, refuses) == Receive(buf[4..], sofar, refuses)
    ensures Length(buf) > MaxPacket ==> Receive(buf, sofar, refuses) == Reception(sofar, Oversized, buf)
    ensures Header(Length(buf)) + buf[4..] == buf
  {
    HeaderOfLength(buf);
  }

  lemma {:induction false} ReceiveBody(n: nat, buf: Bytes, sofar: seq<Bytes>, refuses: Handler)
    requires 0 < n <= MaxPacket
    ensures |buf| < n ==> Receive(Header(n) + buf, sofar, refuses) == Reception(sofar, Waiting, Header(n) + buf)
    ensures |buf| >= n && refuses(sofar, buf[..n]) ==>
      Receive(Header(n) + buf, sofar, refuses) == Reception(sofar + [buf[..n]], Rejected, Header(n) + buf)
    ensures |buf| >= n && !refuses(sofar, buf[..n]) ==>
      Receive(Header(n) + buf, sofar, refuses) == Receive(buf[n..], sofar + [buf[..n]], refuses)
  {
    var s := Header(n) + buf;
    LengthOfHeader(n, buf);
    assert |buf| >= n ==> s[4..4 + n] == buf[..n] && s[4 + n..] == buf[n..];
  }

  class Receiver {
    const refuses: Handler
    var buffer: Bytes
    var readingHeader: bool
    var expected: nat
    /** The packets handed to the handler. */
    var delivered: seq<Bytes>
    /** All bytes read from the start. */
    var seen: Bytes

    ghost predicate Shape()
      reads this
    {
      readingHeader || 0 < expected <= MaxPacket
    }

    /** The bytes held, with the header that was taken off again in front. */
    ghost function Held(): Bytes
      reads this
    {
      if readingHeader then buffer else Header(expected) + buffer
    }

    /** The state is what cutting the whole stream at once leaves, and is ready for more. */
    ghost predicate Valid()
      reads this
    {
      Shape() && Receive(seen, [], refuses) == Reception(delivered, Waiting, Held())
    }

    ghost predicate Stopped()
      reads this
    {
      var r := Receive(seen, [], refuses); r.end != Waiting && r.packets == delivered
    }

    constructor (refuses: Handler)
      ensures Valid() && seen == [] && delivered == [] && this.refuses == refuses
    {
      this.refuses := refuses;
      buffer, readingHeader, expected, delivered, seen := [], true, 0, [], [];
    }

    /** remove_from_buffer_front. */
    method RemoveFront(n: nat)
      requires n <= |buffer|
      modifies this`buffer
      ensures buffer == old(buffer)[n..]
    {
      if n >= |buffer| {
        buffer := [];
      } else {
        buffer := buffer[n..];
      }
    }

    /** The handler is called with the packet at the front, which goes if it is taken. */
    method Deliver() returns (refused: bool)
      requires !readingHeader && 0 < expected <= |buffer|
      modifies this`buffer, this`readingHeader, this`expected, this`delivered
      ensures var p := old(buffer[..expected]);
        && delivered == old(delivered) + [p] && refused == refuses(old(delivered), p)
        && (!refused ==> readingHeader && buffer == old(buffer[expected..]))
    {
      var p := buffer[..expected];
      refused := refuses(delivered, p);
      delivered := delivered + [p];
      if !refused {
        RemoveFront(expected);
        readingHeader, expected := true, 0;
      }
    }

    /** process_complete_packets; `ghost all` is the reception of the whole stream. */
    method Process(ghost all: Reception) returns (r: Status)
      requires Shape() && Receive(Held(), delivered, refuses) == all
      modifies this`buffer, this`readingHeader, this`expected, this`delivered
      ensures delivered == all.packets && (r == Status.Ok <==> all.end == Waiting) && r != Again
      ensures r == Status.Ok ==> Shape() && Held() == all.rest
    {
      while |buffer| > 0
        invariant Shape() && Receive(Held(), delivered, refuses) == all
        decreases |buffer|
      {
        if readingHeader {
          if |buffer| < 4 {
            break;
          }
          ReceiveHeader(buffer, delivered, refuses);
          expected := Length(buffer);
          if expected == 0 {
            RemoveFront(4);
            continue;
          }
          if expected > MaxPacket {
            return Failed;
          }
          RemoveFront(4);
          readingHeader := false;
        } else {
          if |buffer| < expected {
            break;
          }
          ReceiveBody(expected, buffer, delivered, refuses);
          var refused := Deliver();
          if refused {
            return Failed;
          }
        }
      }
      StarvedWaits();
      r := Status.Ok;
    }

    lemma StarvedWaits()
      requires Shape() && if readingHeader then |buffer| < 4 else |buffer| < expected
      ensures Receive(Held(), delivered, refuses) == Reception(delivered, Waiting, Held())
    {
      if !readingHeader {
        ReceiveBody(expected, buffer, delivered, refuses);
      }
    }

    /** The append loop of read_packet: `used` calls of read are made. */
    method ReadPacket(rs: seq<Reading>) returns (r: Status, used: nat)
      requires Valid() && Readings(rs)
      modifies this
      ensures used <= |rs| && seen == old(seen) + BytesOf(rs[..used])
      ensures r != Again && if r == Status.Ok then Valid() else Stopped() || (Valid() && LastFails(rs, used))
      ensures r == Failed <==> Stopped() || LastFails(rs, used)
      ensures r == Status.Ok ==> used == |rs| || (used > 0 && Rests(rs, used - 1))
      ensures used > 0 ==> ReadOn(rs, old(seen), used - 1, refuses)
      ensures Stopped() ==> used > 0 && rs[used - 1].Data?
    {
      used := 0;
      var readAny := false;
      while used < |rs|
        invariant 0 <= used <= |rs| && Valid() && seen == old(seen) + BytesOf(rs[..used])
        invariant readAny <==> HasData(rs, used)
        invariant ReadOn(rs, old(seen), used, refuses)
      {
        var c := rs[used];
        OneMore(rs, used, old(seen));
        OneRead(rs, old(seen), used, refuses);
        used := used + 1;
        match c
        case Data(bytes) =>
          readAny := true;
          var s := Absorb(bytes);
          if s == Failed {
            return Failed, used;
          }
        case Closed => return Failed, used;
        case NothingYet => return Status.Ok, used;
        case Signal =>
          if readAny {
            return Status.Ok, used;
          }
        case ReadError => return Failed, used;
      }
      NotFailed(rs, old(seen), used, refuses);
      r := Status.Ok;
    }

    /** What was read is added to the buffer and processed. */
    method Absorb(bytes: Bytes) returns (s: Status)
      requires Valid()
      modifies this
      ensures seen == old(seen) + bytes && s != Again && if s == Status.Ok then Valid() else Stopped()
    {
      ghost var all := Receive(seen + bytes, [], refuses);
      Continues(seen, bytes, [], refuses);
      Append(bytes);
      seen := seen + bytes;
      s := Process(all);
    }

    method Append(bytes: Bytes)
      modifies this`buffer
      ensures Held() == old(Held()) + bytes
    {
      buffer := buffer + bytes;
    }
  }

  /** One thing that happens on a connection; a read event lists how much each call of read finds. */
  datatype Event = Queue(packet: Bytes) | Writable(writes: seq<Writing>) | Readable(amounts: seq<nat>)

  /** The bytes on the wire from position k on, as successive reads of at most the given amounts find them. */
  function Chunks(wire: Bytes, k: nat, amounts: seq<nat>): (rs: seq<Reading>)
    requires k <= |wire|
    ensures Readings(rs)
    decreases |amounts|
  {
    if amounts == [] then []
    else
      var n := Least(amounts[0], Least(|wire| - k, MaxPacket));
      [ReadAt(wire, k, n)] + Chunks(wire, k + n, amounts[1..])
  }

  /** What read returns with n bytes there. */
  function ReadAt(wire: Bytes, k: nat, n: nat): Reading
    requires k + n <= |wire|
  {
    if n == 0 then NothingYet else Data(wire[k..k + n])
  }

  lemma ReadAtBytes(wire: Bytes, k: nat, n: nat)
    requires k + n <= |wire|
    ensures Chunk(ReadAt(wire, k, n)) == wire[k..k + n]
  {
  }

  /** However far the reader gets, it has read a part of the wire that starts at k. */
  lemma {:induction false} ChunksAreInOrder(wire: Bytes, k: nat, amounts: seq<nat>, used: nat)
    requires k <= |wire| && used <= |Chunks(wire, k, amounts)|
    ensures BytesOf(Chunks(wire, k, amounts)[..used]) <= wire[k..]
    decreases |amounts|
  {
    if used > 0 {
      var n := Least(amounts[0], Least(|wire| - k, MaxPacket));
      NextChunk(wire, k, amounts, used);
      ChunksAreInOrder(wire, k + n, amounts[1..], used - 1);
      PrefixJoin(wire, k, n, BytesOf(Chunks(wire, k + n, amounts[1..])[..used - 1]));
    }
  }

  lemma {:induction false} NextChunk(wire: Bytes, k: nat, amounts: seq<nat>, used: nat)
    requires k <= |wire| && 0 < used <= |Chunks(wire, k, amounts)|
    ensures var n := Least(amounts[0], Least(|wire| - k, MaxPacket)); var rest := Chunks(wire, k + n, amounts[1..]);
      used - 1 <= |rest| && BytesOf(Chunks(wire, k, amounts)[..used]) == wire[k..k + n] + BytesOf(rest[..used - 1])
  {
    var n := Least(amounts[0], Least(|wire| - k, MaxPacket));
    var rest := Chunks(wire, k + n, amounts[1..]);
    FirstOf(ReadAt(wire, k, n), rest, used);
    ReadAtBytes(wire, k, n);
  }

  lemma {:induction false} FirstOf(c: Reading, rest: seq<Reading>, used: nat)
    requires 0 < used <= |rest| + 1
    ensures BytesOf(([c] + rest)[..used]) == Chunk(c) + BytesOf(rest[..used - 1])
  {
    var rs := ([c] + rest)[..used];
    FirstChunk(rs);
    assert rs[0] == c && rs[1..] == rest[..used - 1];
  }

  lemma PrefixJoin(wire: Bytes, k: nat, n: nat, b: Bytes)
    requires k + n <= |wire| && b <= wire[k + n..]
    ensures wire[k..k + n] + b <= wire[k..]
  {
    assert wire[k..] == wire[k..k + n] + wire[k + n..];
  }

  lemma {:induction false} FirstChunk(rs: seq<Reading>)
    requires rs != []
    ensures BytesOf(rs) == Chunk(rs[0]) + BytesOf(rs[1..])
  {
    var n := |rs| - 1;
    if n > 0 {
      FirstChunk(rs[..n]);
      assert rs[..n][1..] == rs[1..][..n - 1];
    }
  }

  /** The reader has seen a first part of what the sender has written. */
  ghost predicate Linked(s: Sender, r: Receiver)
    reads s, r
  {
    s.Valid() && (r.Valid() || r.Stopped()) && r.seen <= s.wire
  }

  /** What both ends promise together, for whatever has happened. */
  lemma Delivery(s: Sender, r: Receiver)
    requires Linked(s, r) && forall p :: p in s.packets ==> |p| < Word
    ensures r.delivered <= Expected(s.packets, [], r.refuses).0
    ensures r.Stopped() || r.seen == Stream(s.packets) ==> r.delivered == Expected(s.packets, [], r.refuses).0
    ensures r.Stopped() ==> Expected(s.packets, [], r.refuses).1 != Waiting
  {
    var under := s.wire[|r.seen|..] + s.Pending();
    assert s.wire == r.seen + s.wire[|r.seen|..];
    assert r.seen + under == Stream(s.packets);
    EndToEnd(s.packets, r.seen, under, r.refuses);
    if r.seen == Stream(s.packets) { assert |under| == 0; }
  }

  /** Any run of a connection, up to the first error of the receiver. */
  method Run(s: Sender, r: Receiver, events: seq<Event>)
    requires Linked(s, r) && r.Valid()
    requires forall p :: p in s.packets ==> |p| < Word
    requires forall k :: 0 <= k < |events| && events[k].Queue? ==> |events[k].packet| < Word
    modifies s, r
    ensures Linked(s, r) && old(s.packets) <= s.packets
    ensures r.delivered <= Expected(s.packets, [], r.refuses).0
    ensures r.seen == Stream(s.packets) ==> r.delivered == Expected(s.packets, [], r.refuses).0
  {
    var k := 0;
    while k < |events|
      invariant 0 <= k <= |events| && Linked(s, r) && r.Valid() && old(s.packets) <= s.packets
      invariant forall p :: p in s.packets ==> |p| < Word
    {
      match events[k] {
        case Queue(p) => s.Send(p);
        case Writable(ws) => var _, _ := s.WritePacket(ws);
        case Readable(ns) =>
          var ok := ReadFrom(s, r, ns);
          if !ok {
            break;
          }
      }
      k := k + 1;
    }
    Delivery(s, r);
  }

  method ReadFrom(s: Sender, r: Receiver, amounts: seq<nat>) returns (ok: bool)
    requires Linked(s, r) && r.Valid()
    modifies r
    ensures Linked(s, r) && (ok ==> r.Valid())
  {
    ghost var k := |r.seen|;
    assert s.wire == r.seen + s.wire[k..];
    var st, used := r.ReadPacket(Chunks(s.wire, |r.seen|, amounts));
    ChunksAreInOrder(s.wire, k, amounts, used);
    ok := st == Status.Ok;
  }
}
