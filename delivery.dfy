/**
 * Arrival-order invariance of the reassembly engine: whatever order the
 * chunks of one transfer arrive in, and however often each is repeated,
 * once every number 0..N-1 has arrived the output is the payloads in
 * number order and the reorder buffer is empty.
 */
module Delivery {
  import opened Wire
  import opened Reassembly

  /** Feeds the chunks to the engine one after the other, in arrival order. */
  function Deliver(s: Session, cs: seq<Chunk>): Session
    decreases |cs|
  {
    if cs == [] then s else Deliver(Step(s, cs[0]).next, cs[1..])
  }

  /** The payloads concatenated in order. */
  function Flatten(ps: seq<Bytes>): Bytes
    decreases |ps|
  {
    if ps == [] then [] else ps[0] + Flatten(ps[1..])
  }

  /** The sequence numbers that occur among the chunks. */
  function Numbers(cs: seq<Chunk>): set<nat> {
    set i | 0 <= i < |cs| :: cs[i].number as nat
  }

  /** Each chunk carries a number below `|ps|` and the payload `ps` holds for that number. */
  predicate ChunksOf(cs: seq<Chunk>, ps: seq<Bytes>) {
    forall i :: 0 <= i < |cs| ==> cs[i].number < |ps| && cs[i].payload == ps[cs[i].number]
  }

  /** Every number below `n`, each exactly once. */
  function Iota(n: nat): seq<nat> {
    seq(n, i => i)
  }

  /** The chunks of `ps`, taken in the order the numbers appear in `order`. */
  function ChunksInOrder(order: seq<nat>, ps: seq<Bytes>): (cs: seq<Chunk>)
    requires |ps| <= EofSentinel
    requires forall i :: 0 <= i < |order| ==> order[i] < |ps|
    ensures |cs| == |order|
    ensures forall i :: 0 <= i < |cs| ==> cs[i].number == order[i] && cs[i].payload == ps[order[i]]
  {
    seq(|order|, i requires 0 <= i < |order| => Chunk(order[i], ps[order[i]]))
  }

  /**
   * What the engine holds after the numbers in `delivered` have arrived:
   * the cursor is the first number not yet arrived, the buffer holds exactly
   * the arrived numbers beyond it with their payloads, and the output is the
   * payloads below the cursor in order.
   */
  ghost predicate Tracks(s: Session, delivered: set<nat>, ps: seq<Bytes>) {
    && (forall k :: k in delivered ==> k < |ps|)
    && (forall k :: 0 <= k < s.cursor ==> k in delivered)
    && s.cursor !in delivered
    && (forall k :: k in s.buffer <==> k in delivered && k > s.cursor)
    && (forall k :: k in s.buffer ==> k < |ps| && s.buffer[k] == ps[k])
    && s.cursor <= |ps|
    && s.output == Flatten(ps[..s.cursor])
  }

  lemma {:induction false} FlattenAppend(a: seq<Bytes>, b: seq<Bytes>)
    ensures Flatten(a + b) == Flatten(a) + Flatten(b)
    decreases |a|
  {
    if a != [] {
      assert (a + b)[0] == a[0] && (a + b)[1..] == a[1..] + b;
      calc {
        Flatten(a + b);
        a[0] + Flatten(a[1..] + b);
        { FlattenAppend(a[1..], b); }
        a[0] + (Flatten(a[1..]) + Flatten(b));
        Flatten(a) + Flatten(b);
      }
    } else {
      assert a + b == b;
    }
  }

  /** A run taken from a buffer that agrees with `ps` is the flattened slice of `ps`. */
  lemma {:induction false} RunIsFlatten(b: map<nat, Bytes>, ps: seq<Bytes>, i: nat, j: nat)
    requires i <= j <= |ps|
    requires forall k :: i <= k < j ==> k in b && b[k] == ps[k]
    ensures Run(b, i, j) == Flatten(ps[i..j])
    decreases j - i
  {
    if i < j {
      RunIsFlatten(b, ps, i + 1, j);
      assert ps[i..j][1..] == ps[i + 1..j];
    }
  }

  /** One arriving chunk of the transfer keeps `Tracks`, with its number added. */
  lemma StepTracks(s: Session, delivered: set<nat>, ps: seq<Bytes>, c: Chunk)
    requires |ps| <= EofSentinel
    requires Tracks(s, delivered, ps)
    requires c.number < |ps| && c.payload == ps[c.number]
    ensures Tracks(Step(s, c).next, delivered + {c.number}, ps)
  {
    var d' := delivered + {c.number};
    if c.number == s.cursor {
      var n := s.cursor;
      StepAccept(s, c);
      var r := Step(s, c).next;
      assert r.cursor - 1 in d';
      RunIsFlatten(s.buffer, ps, n + 1, r.cursor);
      calc {
        r.output;
        Flatten(ps[..n]) + ps[n] + Flatten(ps[n + 1..r.cursor]);
        { assert ps[n..r.cursor][1..] == ps[n + 1..r.cursor]; }
        Flatten(ps[..n]) + Flatten(ps[n..r.cursor]);
        { FlattenAppend(ps[..n], ps[n..r.cursor]);
          assert ps[..n] + ps[n..r.cursor] == ps[..r.cursor]; }
        Flatten(ps[..r.cursor]);
      }
    } else if c.number > s.cursor {
      StepEarly(s, c);
    } else {
      assert d' == delivered;
    }
  }

  /** Delivering a batch keeps `Tracks`, with the batch's numbers added. */
  lemma {:induction false} DeliverTracks(s: Session, delivered: set<nat>, ps: seq<Bytes>, cs: seq<Chunk>)
    requires |ps| <= EofSentinel
    requires Tracks(s, delivered, ps)
    requires ChunksOf(cs, ps)
    ensures Tracks(Deliver(s, cs), delivered + Numbers(cs), ps)
    decreases |cs|
  {
    if cs != [] {
      StepTracks(s, delivered, ps, cs[0]);
      DeliverTracks(Step(s, cs[0]).next, delivered + {cs[0].number}, ps, cs[1..]);
      assert Numbers(cs) == {cs[0].number as nat} + Numbers(cs[1..]) by {
        forall k | k in Numbers(cs) ensures k in {cs[0].number as nat} + Numbers(cs[1..]) {
          var i :| 0 <= i < |cs| && cs[i].number == k;
          if i > 0 {
            assert cs[1..][i - 1] == cs[i];
          }
        }
        forall k | k in Numbers(cs[1..]) ensures k in Numbers(cs) {
          var i :| 0 <= i < |cs[1..]| && cs[1..][i].number == k;
          assert cs[i + 1] == cs[1..][i];
        }
      }
    }
  }

  /**
   * Any arrival order, duplicates included: once the arrived numbers are
   * exactly 0..N-1, the cursor is N, the buffer is empty and the output is
   * the N payloads in number order.
   */
  lemma AnyArrivalOrder(ps: seq<Bytes>, cs: seq<Chunk>)
    requires |ps| <= EofSentinel
    requires ChunksOf(cs, ps)
    requires forall k :: 0 <= k < |ps| ==> k in Numbers(cs)
    ensures Deliver(Initial, cs) == Session(|ps|, map[], Flatten(ps))
  {
    assert Tracks(Initial, {}, ps);
    DeliverTracks(Initial, {}, ps, cs);
    var r := Deliver(Initial, cs);
    assert {} + Numbers(cs) == Numbers(cs);
    assert r.cursor == |ps|;
    assert r.buffer.Keys == {};
    assert ps[..|ps|] == ps;
  }

  /** The chunks of a transfer arriving in any permutation reassemble to the payloads in order. */
  lemma PermutedDelivery(ps: seq<Bytes>, order: seq<nat>)
    requires |ps| <= EofSentinel
    requires multiset(order) == multiset(Iota(|ps|))
    ensures forall i :: 0 <= i < |order| ==> order[i] < |ps|
    ensures Deliver(Initial, ChunksInOrder(order, ps)) == Session(|ps|, map[], Flatten(ps))
  {
    forall i | 0 <= i < |order| ensures order[i] < |ps| {
      assert order[i] in multiset(Iota(|ps|));
    }
    var cs := ChunksInOrder(order, ps);
    forall k | 0 <= k < |ps| ensures k in Numbers(cs) {
      assert Iota(|ps|)[k] == k;
      assert k in multiset(order);
      var i :| 0 <= i < |order| && order[i] == k;
      assert cs[i].number == k;
    }
    AnyArrivalOrder(ps, cs);
  }

  /** The chunks of a transfer arriving in order reassemble to the payloads in order. */
  lemma InOrderDelivery(ps: seq<Bytes>)
    requires |ps| <= EofSentinel
    ensures Deliver(Initial, ChunksInOrder(Iota(|ps|), ps)) == Session(|ps|, map[], Flatten(ps))
  {
    PermutedDelivery(ps, Iota(|ps|));
  }

  /** A transfer whose numbers 0..N-1 all arrived, then end of file: the stored bytes are the payloads in order. */
  lemma TransferThenEof(ps: seq<Bytes>, cs: seq<Chunk>, p: Bytes)
    requires |ps| <= EofSentinel
    requires ChunksOf(cs, ps)
    requires forall k :: 0 <= k < |ps| ==> k in Numbers(cs)
    ensures Step(Deliver(Initial, cs), Chunk(EofSentinel, p)) == Transition(Initial, Finalize(SaveIfNonEmpty(Flatten(ps))))
  {
    AnyArrivalOrder(ps, cs);
  }

  /** After an end-of-file chunk the next transfer runs as if the receiver had just started. */
  lemma EofStartsAfresh(s: Session, p: Bytes, cs: seq<Chunk>)
    ensures Deliver(s, [Chunk(EofSentinel, p)] + cs) == Deliver(Initial, cs)
  {
  }

  /**
   * A gap: chunks 0, 2 and 3 leave only payload 0 in the output with the
   * cursor at 1 and 2, 3 buffered; chunk 1 then cascades all of them out.
   */
  lemma GapTolerance(p0: Bytes, p1: Bytes, p2: Bytes, p3: Bytes)
    ensures var s := Deliver(Initial, [Chunk(0, p0), Chunk(2, p2), Chunk(3, p3)]);
      s == Session(1, map[2 := p2, 3 := p3], p0)
    ensures var s := Deliver(Initial, [Chunk(0, p0), Chunk(2, p2), Chunk(3, p3)] + [Chunk(1, p1)]);
      s == Session(4, map[], p0 + p1 + p2 + p3)
  {
    var s1 := Step(Initial, Chunk(0, p0)).next;
    assert s1 == Session(1, map[], p0);
    var s2 := Step(s1, Chunk(2, p2)).next;
    var s3 := Step(s2, Chunk(3, p3)).next;
    assert s3 == Session(1, map[2 := p2, 3 := p3], p0);
    var s4 := Step(s3, Chunk(1, p1)).next;
    var b := map[2 := p2, 3 := p3];
    assert b - {2} == map[3 := p3];
    assert map[3 := p3] - {3} == map[];
    calc {
      s4;
      Drain(Session(2, b, p0 + p1));
      Drain(Session(3, map[3 := p3], p0 + p1 + p2));
      Drain(Session(4, map[], p0 + p1 + p2 + p3));
      Session(4, map[], p0 + p1 + p2 + p3);
    }
    var early := [Chunk(0, p0), Chunk(2, p2), Chunk(3, p3)];
    assert early[1..] == [Chunk(2, p2), Chunk(3, p3)] && early[1..][1..] == [Chunk(3, p3)];
    assert Deliver(Initial, early) == Deliver(s2, [Chunk(3, p3)]) == Deliver(s3, []);
    var all := early + [Chunk(1, p1)];
    assert all[1..] == [Chunk(2, p2), Chunk(3, p3), Chunk(1, p1)];
    assert all[1..][1..] == [Chunk(3, p3), Chunk(1, p1)] && all[1..][1..][1..] == [Chunk(1, p1)];
    calc {
      Deliver(Initial, all);
      Deliver(s1, all[1..]);
      Deliver(s2, all[1..][1..]);
      Deliver(s3, [Chunk(1, p1)]);
      { assert [Chunk(1, p1)][1..] == []; }
      Deliver(s4, []);
    }
  }
}
