/**
 * The receiver as the server runs it: one session held in mutable fields,
 * updated in place by each datagram. Each method is proved to perform
 * exactly the step that module Reassembly specifies.
 */
module Server {
  import opened Wrappers
  import opened Wire
  import opened Reassembly

  class Receiver {
    var cursor: nat                   // the next sequence number to append
    var buffer: map<nat, Bytes>       // chunks that arrived early, by number
    var output: Bytes                 // the file reconstructed so far

    /** The session these fields hold. */
    function State(): Session
      reads this
    {
      Session(cursor, buffer, output)
    }

    ghost predicate Valid()
      reads this
    {
      KeysAhead(State())
    }

    constructor ()
      ensures Valid() && State() == Initial
    {
      cursor, buffer, output := 0, map[], [];
    }

    /** Classifies one decoded chunk and updates the session in place. */
    method Process(c: Chunk) returns (action: Action)
      requires Valid()
      modifies this
      ensures Valid()
      ensures Transition(State(), action) == Step(old(State()), c)
    {
      StepKeepsKeysAhead(State(), c);
      if c.number == EofSentinel {
        action := Finalize(SaveIfNonEmpty(output));
        cursor, buffer, output := 0, map[], [];
      } else if c.number == cursor {
        output := output + c.payload;
        cursor := cursor + 1;
        while cursor in buffer
          invariant Drain(State()) == Drain(Session(old(cursor) + 1, old(buffer), old(output) + c.payload))
          decreases |buffer|
        {
          var data := buffer[cursor];
          assert (buffer - {cursor}).Keys == buffer.Keys - {cursor};
          buffer := buffer - {cursor};
          output := output + data;
          cursor := cursor + 1;
        }
        action := Accepted;
      } else if c.number > cursor {
        if c.number !in buffer {
          buffer := buffer[c.number := c.payload];
          action := Buffered;
        } else {
          action := DuplicateOutOfOrder;
        }
      } else {
        action := DuplicateStale;
      }
    }

    /** Receives one datagram: drops noise, otherwise steps its chunk and returns the acknowledgment to send. */
    method HandleDatagram(d: Bytes) returns (ack: Option<Bytes>, action: Option<Action>)
      requires Valid()
      modifies this
      ensures Valid()
      ensures Reply(State(), ack, action) == Handle(old(State()), d)
    {
      if |d| < HeaderLength {
        ack, action := None, None;
        return;
      }
      var number := BigEndian32(d[..HeaderLength]);
      var payload := d[HeaderLength..];
      var a := Process(Chunk(number, payload));
      ack, action := Some(EncodeAck(number)), Some(a);
    }

    /** On operator interrupt: the partial output to store, if there is any. */
    method Interrupt() returns (save: Option<Bytes>)
      ensures save.Some? <==> |output| > 0
      ensures save.Some? ==> save.value == output
    {
      save := SaveIfNonEmpty(output);
    }
  }
}
