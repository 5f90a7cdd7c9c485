# Reassembly engine of a UDP file receiver

This project models the receiver of a small reliable file-transfer protocol
that runs over UDP. The sender splits a file into numbered chunks. Each
chunk datagram is a 4-byte big-endian unsigned sequence number followed by
the payload. The number `0xFFFFFFFF` marks the end of the file. The
receiver acknowledges every framed chunk by sending back its 4-byte number.
It puts the chunks back in order and hands the reconstructed bytes to
storage when the end-of-file chunk arrives.

The state of the engine is three values:

- the expected-sequence cursor;
- a reorder buffer that maps sequence numbers to payloads that arrived early;
- the output assembled so far.

Each chunk takes one of four branches:

- end of file: offer the output for saving if it is non-empty, then reset;
- in order: append the payload, then drain the buffer in a cascade;
- early: buffer the chunk unless its number is already buffered;
- stale: ignore it.

Layout:

- `wrappers.dfy`, module `Wrappers`: the `Option` datatype.
- `wire.dfy`, module `Wire`: byte and 32-bit types, header decoding
  (`BigEndian32`, `Decode`) and the acknowledgment encoding (`EncodeAck`),
  with their round-trip lemmas.
- `reassembly.dfy`, module `Reassembly`: the session as a value (`Session`).
  It holds the pure step function `Step`, the drain cascade `Drain`, the
  per-datagram function `Handle`, and lemmas about each branch and about the
  invariants kept across steps.
- `delivery.dfy`, module `Delivery`: `Deliver` folds `Step` over an arrival
  sequence. The lemmas here prove that arrival order does not change the
  reassembled output.
- `server.dfy`, module `Server`: class `Receiver`. It keeps the three values
  in mutable fields and updates them in place. `Process` contains the drain
  `while` loop, `HandleDatagram` adds the length filter and the ACK, and
  `Interrupt` gives the bytes flushed on shutdown. Each method is proved to
  do exactly what the pure specification in `Reassembly` says.

Inputs and outputs of the socket loop are parameters and results here.
The received datagram is a method argument. The ACK to send is returned as
an `Option` of bytes. The bytes to write to the output file are the `save`
field of the `Finalize` action.

Where the code and the design description differ, the model follows the code:

- A chunk with an empty payload is accepted under any sequence number. The
  code only checks that the datagram has at least 4 bytes.
- The cursor is an unbounded integer (`nat`), not a 32-bit counter. The
  code increments a Python int and never wraps it.
- At end of file the output is handed to storage only when it is non-empty
  (`SaveIfNonEmpty`). It is not finalized unconditionally.

## Model

| member | source | states |
|---|---|---|
| `Wire.EncodeAck` | server.py:55 | the ACK is exactly four bytes, and reading them big-endian gives back the acknowledged number |
| `Wire.Decode` | server.py:29-35 | a datagram is rejected exactly when it is shorter than the 4-byte header; otherwise the decoded number, re-encoded and followed by the payload, is the datagram itself |
| `Wire.HeaderRoundTrip` | server.py:34 | re-encoding the unsigned big-endian value of any four header bytes gives back those bytes |
| `Wire.DecodeEncode` | server.py:34-35 | decoding the encoding of any 32-bit number followed by any payload gives back that number and that payload |
| `Wire.EncodeAckInjective` | server.py:46 | two ACKs are equal exactly when they acknowledge the same number |
| `Reassembly.SaveIfNonEmpty` | server.py:41-43 | bytes are offered to storage exactly when the output is non-empty, and then they are the whole output |
| `Reassembly.DrainCascade` | server.py:64-68 | the drain loop stops at the first number missing from the buffer. It appends the payloads of the numbers it passed, in increasing order. Exactly those numbers leave the buffer. Every other entry keeps its payload |
| `Reassembly.StepEof` | server.py:38-52 | on the sentinel, the output is offered for saving only if non-empty, and cursor, buffer and output all reset to 0, empty and empty |
| `Reassembly.StepAccept` | server.py:59-68 | on the expected number, the output grows by this payload and then the buffered payloads of cursor+1, cursor+2, … up to the first gap. The cursor ends one past them, on a number not in the old or the new buffer. Only those numbers are removed |
| `Reassembly.StepEarly` | server.py:70-76 | on a number beyond the cursor, a new number is stored with its payload. An already buffered one keeps its original payload and is reported as a duplicate. Cursor, output and other entries are unchanged |
| `Reassembly.StepStale` | server.py:77-80 | on a number behind the cursor, the session is unchanged and the chunk is reported as a stale duplicate |
| `Reassembly.StepKeepsKeysAhead` | server.py:59-73 | every step keeps every buffered number strictly greater than the cursor |
| `Reassembly.StepMonotone` | server.py:59-80 | outside end of file, the cursor never decreases and the old output is a prefix of the new one |
| `Reassembly.NoiseIgnored` | server.py:29-32 | a datagram produces no ACK, no action and no state change exactly when it is shorter than 4 bytes |
| `Reassembly.AckAlways` | server.py:46-56 | every datagram of at least 4 bytes gets exactly one ACK, which is its own four header bytes, whichever branch it takes |
| `Reassembly.HandleFramed` | server.py:34-56 | a datagram framed from number n and payload p is stepped as the chunk (n, p) and acknowledged with the encoding of n |
| `Delivery.StepTracks` | server.py:59-80 | one chunk of a transfer keeps the reassembly invariant: the cursor is the first number not yet arrived, the buffer holds exactly the arrived numbers beyond it with their payloads, and the output is the payloads below the cursor in order |
| `Delivery.DeliverTracks` | server.py:59-80 | a whole arrival sequence keeps that invariant, with all of its numbers added to the arrived set |
| `Delivery.AnyArrivalOrder` | server.py:59-80 | for any arrival sequence whose numbers are exactly 0..N-1, in any order and with any repetitions, the cursor ends at N, the buffer is empty and the output is the N payloads in number order |
| `Delivery.PermutedDelivery` | server.py:59-80 | the chunks 0..N-1 arriving in any permutation reassemble to the in-order concatenation of their payloads, with the buffer empty |
| `Delivery.InOrderDelivery` | server.py:59-68 | the chunks 0..N-1 arriving in order reassemble to the concatenation of their payloads |
| `Delivery.TransferThenEof` | server.py:38-80 | once all of 0..N-1 have arrived, the end-of-file chunk offers the in-order payloads for saving (if non-empty) and resets the session |
| `Delivery.EofStartsAfresh` | server.py:48-51 | after an end-of-file chunk, the next arrivals are processed exactly as by a freshly started receiver |
| `Delivery.GapTolerance` | server.py:59-76 | chunks 0, 2, 3 leave cursor 1, buffer {2, 3} and output payload 0. Chunk 1 then cascades all of them out, leaving cursor 4 and an empty buffer |
| `Server.Receiver.constructor` | server.py:19-21 | a new receiver starts with cursor 0, an empty buffer and an empty output |
| `Server.Receiver.Process` | server.py:38-80 | processing one chunk in place, drain loop included, leaves the fields and returns the action that `Step` gives, and keeps every buffered number beyond the cursor |
| `Server.Receiver.HandleDatagram` | server.py:29-80 | receiving one datagram in place gives the state, ACK and action that `Handle` gives |
| `Server.Receiver.Interrupt` | server.py:110-113 | on interrupt, the partial output is offered for saving exactly when it is non-empty |

## Left out

- Socket creation, `bind`, `recvfrom` and `sendto` (server.py:10-16, 26, 47, 56): network I/O. The datagram is an argument and the ACK a returned value.
- The 2048-byte receive size of `recvfrom` (server.py:26): longer datagrams would be truncated by the socket layer, which is not modelled; the model takes the datagram as delivered.
- Writing the file on end of file and on interrupt (server.py:41-44, 110-113): storage I/O. Only the bytes to write and the non-empty guard are modelled.
- `KeyboardInterrupt`, the generic `except` and the `finally` socket close (server.py:107-118): process lifecycle and exception plumbing. A failed file write ending the loop is not modelled.
- The string literal at server.py:81-106: it holds old code and never runs.
- `argparse` and the `__main__` block (server.py:120-126): command-line wiring.
- All `print` logging.
- The insertion order of the `OrderedDict` buffer: nothing observable depends on it, so the buffer is a `map`.
