/**
 * The reassembly engine as a pure state machine.
 *
 * A session is the expected-sequence cursor, the reorder buffer of chunks
 * that arrived early, and the output assembled so far. `Step` classifies one
 * decoded chunk into one of four branches (end of file, in order, early,
 * stale); `Handle` adds the datagram length filter and the acknowledgment
 * in front of it. The class in module Server runs the same steps in place.
 */
module Reassembly {
  import opened Wrappers
  import opened Wire

  type Bytes = seq<uint8>

  datatype Session = Session(cursor: nat, buffer: map<nat, Bytes>, output: Bytes)

  /** The state at start-up and after every end-of-file chunk. */
  const Initial: Session := Session(0, map[], [])

  /** What one chunk did to the session. */
  datatype Action =
    | Finalize(save: Option<Bytes>)  // end of file; `save` holds the bytes to store, if any
    | Accepted                       // in order: appended, buffer drained
    | Buffered                       // early: stored in the reorder buffer
    | DuplicateOutOfOrder            // early, but its number was already buffered
    | DuplicateStale                 // behind the cursor: already delivered

  datatype Transition = Transition(next: Session, action: Action)

  /** The reply to one datagram: the new session, the acknowledgment to send, the action taken. */
  datatype Reply = Reply(next: Session, ack: Option<Bytes>, action: Option<Action>)

  /** Every buffered number lies strictly beyond the cursor. */
  predicate KeysAhead(s: Session) {
    forall k :: k in s.buffer ==> k > s.cursor
  }

  /** The bytes handed to storage when a transfer ends: the output, unless it is empty. */
  function SaveIfNonEmpty(data: Bytes): (r: Option<Bytes>)
    ensures r.Some? <==> |data| > 0
    ensures r.Some? ==> r.value == data
  {
    if |data| > 0 then Some(data) else None
  }

  /** The payloads buffered under numbers `i`, `i + 1`, ..., `j - 1`, concatenated. */
  function Run(b: map<nat, Bytes>, i: nat, j: nat): Bytes
    requires forall k :: i <= k < j ==> k in b
    decreases j - i
  {
    if i >= j then [] else b[i] + Run(b, i + 1, j)
  }

  /** Moves buffered chunks to the output for as long as the cursor is a buffered number. */
  function Drain(s: Session): Session
    decreases |s.buffer|
  {
    if s.cursor in s.buffer then
      assert (s.buffer - {s.cursor}).Keys == s.buffer.Keys - {s.cursor};
      Drain(Session(s.cursor + 1, s.buffer - {s.cursor}, s.output + s.buffer[s.cursor]))
    else s
  }

  /** One chunk through the engine. */
  function Step(s: Session, c: Chunk): Transition {
    if c.number == EofSentinel then
      Transition(Initial, Finalize(SaveIfNonEmpty(s.output)))
    else if c.number == s.cursor then
      Transition(Drain(Session(s.cursor + 1, s.buffer, s.output + c.payload)), Accepted)
    else if c.number > s.cursor then
      if c.number in s.buffer then Transition(s, DuplicateOutOfOrder)
      else Transition(s.(buffer := s.buffer[c.number := c.payload]), Buffered)
    else
      Transition(s, DuplicateStale)
  }

  /** One datagram: noise is dropped, every framed chunk is acknowledged and stepped. */
  function Handle(s: Session, d: Bytes): Reply {
    match Decode(d)
    case None => Reply(s, None, None)
    case Some(c) =>
      var t := Step(s, c);
      Reply(t.next, Some(EncodeAck(c.number)), Some(t.action))
  }

  // ---------------------------------------------------------------------
  // The drain cascade

  /** Two buffers that agree on `i..j-1` give the same run. */
  lemma {:induction false} RunAgree(b1: map<nat, Bytes>, b2: map<nat, Bytes>, i: nat, j: nat)
    requires forall k :: i <= k < j ==> k in b1 && k in b2 && b1[k] == b2[k]
    ensures Run(b1, i, j) == Run(b2, i, j)
    decreases j - i
  {
    if i < j {
      RunAgree(b1, b2, i + 1, j);
    }
  }

  /**
   * Draining stops at the first number missing from the buffer, appends the
   * payloads of the numbers it passed in order, removes exactly those numbers
   * and leaves every other entry as it was.
   */
  lemma {:induction false} DrainCascade(s: Session)
    ensures s.cursor <= Drain(s).cursor
    ensures forall k :: s.cursor <= k < Drain(s).cursor ==> k in s.buffer
    ensures Drain(s).cursor !in s.buffer
    ensures Drain(s).output == s.output + Run(s.buffer, s.cursor, Drain(s).cursor)
    ensures forall k :: k in Drain(s).buffer <==> k in s.buffer && !(s.cursor <= k < Drain(s).cursor)
    ensures forall k :: k in Drain(s).buffer ==> Drain(s).buffer[k] == s.buffer[k]
    decreases |s.buffer|
  {
    if s.cursor in s.buffer {
      var b := s.buffer;
      var c := s.cursor;
      assert (b - {c}).Keys == b.Keys - {c};
      var s1 := Session(c + 1, b - {c}, s.output + b[c]);
      DrainCascade(s1);
      var r := Drain(s1);
      assert Drain(s) == r;
      forall k | c + 1 <= k < r.cursor ensures k in b - {c} && k in b && (b - {c})[k] == b[k] {
        assert k in s1.buffer;
      }
      RunAgree(b - {c}, b, c + 1, r.cursor);
      assert Run(b, c, r.cursor) == b[c] + Run(b, c + 1, r.cursor);
    }
  }

  // ---------------------------------------------------------------------
  // The four branches of Step

  /** End of file: the output is offered for saving only when non-empty, and the session resets. */
  lemma StepEof(s: Session, c: Chunk)
    requires c.number == EofSentinel
    ensures Step(s, c).next.cursor == 0
    ensures Step(s, c).next.buffer == map[]
    ensures Step(s, c).next.output == []
    ensures Step(s, c).action.Finalize?
    ensures Step(s, c).action.save.Some? <==> |s.output| > 0
    ensures Step(s, c).action.save.Some? ==> Step(s, c).action.save.value == s.output
  {
  }

  /**
   * In-order chunk: the output grows by its payload and then by the buffered
   * payloads of the following numbers up to the first missing one; the
   * cursor ends just past them, on a number that is not buffered; exactly
   * those numbers leave the buffer.
   */
  lemma StepAccept(s: Session, c: Chunk)
    requires c.number != EofSentinel && c.number == s.cursor
    ensures var t := Step(s, c);
      && t.action == Accepted
      && s.cursor < t.next.cursor
      && (forall k :: s.cursor < k < t.next.cursor ==> k in s.buffer)
      && t.next.cursor !in s.buffer
      && t.next.cursor !in t.next.buffer
      && t.next.output == s.output + c.payload + Run(s.buffer, s.cursor + 1, t.next.cursor)
      && (forall k :: k in t.next.buffer <==> k in s.buffer && !(s.cursor < k < t.next.cursor))
      && (forall k :: k in t.next.buffer ==> t.next.buffer[k] == s.buffer[k])
  {
    DrainCascade(Session(s.cursor + 1, s.buffer, s.output + c.payload));
  }

  /** Early chunk: a new number is stored with its payload, a buffered one keeps its first payload. */
  lemma StepEarly(s: Session, c: Chunk)
    requires c.number != EofSentinel && c.number > s.cursor
    ensures var t := Step(s, c);
      && t.action == (if c.number in s.buffer then DuplicateOutOfOrder else Buffered)
      && t.next.cursor == s.cursor
      && t.next.output == s.output
      && c.number in t.next.buffer
      && t.next.buffer[c.number] == (if c.number in s.buffer then s.buffer[c.number] else c.payload)
      && (forall k :: k != c.number ==> (k in t.next.buffer <==> k in s.buffer))
      && (forall k :: k != c.number && k in s.buffer ==> t.next.buffer[k] == s.buffer[k])
  {
  }

  /** Stale chunk: nothing changes. */
  lemma StepStale(s: Session, c: Chunk)
    requires c.number != EofSentinel && c.number < s.cursor
    ensures Step(s, c) == Transition(s, DuplicateStale)
  {
  }

  // ---------------------------------------------------------------------
  // Invariants across steps

  /** Every step keeps all buffered numbers ahead of the cursor. */
  lemma StepKeepsKeysAhead(s: Session, c: Chunk)
    requires KeysAhead(s)
    ensures KeysAhead(Step(s, c).next)
  {
    if c.number != EofSentinel && c.number == s.cursor {
      StepAccept(s, c);
    }
  }

  /** Outside end of file, the cursor never moves back and the output only grows at its end. */
  lemma StepMonotone(s: Session, c: Chunk)
    requires c.number != EofSentinel
    ensures s.cursor <= Step(s, c).next.cursor
    ensures s.output <= Step(s, c).next.output
  {
    if c.number == s.cursor {
      StepAccept(s, c);
    }
  }

  // ---------------------------------------------------------------------
  // Datagrams

  /** A datagram is dropped without acknowledgment and without effect exactly when it is shorter than the header. */
  lemma NoiseIgnored(s: Session, d: Bytes)
    ensures Handle(s, d) == Reply(s, None, None) <==> |d| < HeaderLength
  {
  }

  /** Every framed datagram gets exactly one acknowledgment: its own four header bytes. */
  lemma AckAlways(s: Session, d: Bytes)
    requires |d| >= HeaderLength
    ensures Handle(s, d).ack == Some(d[..HeaderLength])
    ensures Handle(s, d).action.Some?
  {
  }

  /** A chunk framed as header and payload is stepped as that chunk and acknowledged with its number. */
  lemma HandleFramed(s: Session, n: uint32, p: Bytes)
    ensures var t := Step(s, Chunk(n, p));
      Handle(s, EncodeAck(n) + p) == Reply(t.next, Some(EncodeAck(n)), Some(t.action))
  {
  }
}
