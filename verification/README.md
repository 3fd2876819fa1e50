# A verified model of the fq client's protocol engine

fq is a client library for a rate-limiting and quota server. This project models
what lies between its command methods and its sockets, and proves what that
machinery is for: frames come back as they were sent, a mutating command never
reaches a server twice by itself, a call gets the reply to its own request, a
pool neither loses nor duplicates connections, and a sharded client behaves like
an unsharded one.

## Modules

| module | what it models |
|---|---|
| `Core`, `Text` | bytes, results, the exceptions; partition, split, join and decimal numbers |
| `Framing` | the four-byte size header, frames, and what a reader gets out of any byte stream |
| `Responses`, `Chunked` | the decoders of `ok`, `err` and `nxt` payloads; assembly of replies spread over frames |
| `Fnv`, `Sharding` | 32-bit FNV-1a, routing of keys to shards, the composite scan cursor |
| `MultiDelete`, `ScanWalk`, `FanOut` | the sharded facade: scatter and gather, paging over shards, merging streams |
| `Reconnect` | backoff policy and deadlines, over the reals |
| `Transport` | sockets, clock and random numbers as an adversary's script |
| `Reads` | the reading half of a connection as a function of the script; a stream as frames with gaps |
| `Exchanges` | what becomes of a request, of its reply and of a reconnect, as functions of the script, and when they go well |
| `Connections`, `Pairing` | one connection: write, read, handshake, reconnect; which reply answers which request |
| `Delivery` | what servers receive, also after a request that broke off |
| `Budgets`, `Recoveries` | what the attempts of a call may spend; what a call that loses its connection needs to be answered after all |
| `Clients`, `Streams` | the retry loop with its backoff; the reconnecting stream of events |
| `Hazards` | runs from a sound connection into the states that the guarantees exclude |
| `Pools`, `SyncPool` | the pool as interleaved steps, threaded and asyncio; the pool object of the threaded client |

## How the environment is modelled

`Transport.Network` holds a finite script of arbitrary choices. Each clock
reading, sleep, random draw, `connect`, `settimeout`, `sendall` and `recv` uses
one of them: it may succeed, time out or fail, move any number of bytes, and take
any time from a lower bound upwards. A run that outlives its script ends with
`Interrupted`, so the scripts of all lengths cover every prefix of every run. The
log of writes, the time slept, the number of dials and the number of sends are
ghost fields that the code cannot read. Budgets are stated on them. What comes out
of a single request, reply, poll or connect is a function of the script from the
place where it began. So none of them can claim an error that the script does not
contain, and none can miss a reply that it does contain: for each there is a law
that says when it goes well.

Some definitions have the form `forall k: nat | Unfold(k) :: P`, or the same with
`UnfoldOn` and a topic. Both are true of every number, so they mean just `P`; the
form keeps the verifier from expanding them where a proof does not need them.

What is assumed, and nothing else:

- `sendall` that raises an `OSError` other than a timeout has sent a strict
  prefix of the frame; one that times out may have sent any part of it, the whole
  frame included.
- The bytes a server sends on a socket form one sequence, from which `recv` takes
  non-empty pieces of any size, and nothing once it is used up.
- The clock does not go backwards and a sleep takes at least its length.
- A mutating command is not the greeting (`HELLO` is sent as read-only).
- An exception from outside the library, such as Ctrl-C, arrives before an
  operation and not inside one (`Interrupted`). One that hit `sendall` after the
  last byte would leave the flag down with a whole copy written.
- A shard deletes the keys of one `MDEL` from left to right, and its scan pages,
  of any size and possibly empty, neither lose nor repeat keys and make progress.

## What the model shows about the code as written

- The README's promise about mutating commands holds: whatever the script does,
  one call writes at most one whole copy, exactly one if it returns, and none if
  it raises with the in-flight flag down or the connection closed
  (`Clients.Client.WithRetry`). With sockets that carried whole frames before, the
  servers decode just as many (`Clients.Client.Execute`), call after call
  (`Clients.Client.ExecuteTwice`).
- A call that loses its connection before its request can have left is answered
  after all: if the budget grants a second attempt and the server dialled then
  greets acceptably and replies, the call returns that reply after two sends
  (`Clients.Client.WithRetry`). A socket that breaks under `sendall` is such a loss,
  for mutating commands too, and so is a connection that is found closed
  (`Recoveries.BrokenSendLosesFirst`, `Recoveries.ClosedConnectionLosesFirst`).
- A server is connected to whenever its greeting is well-formed and speaks this
  version of the protocol, arrives within the connect timeout, and nothing fails
  (`Exchanges.ConnectArrives`); a connect that raises anything has a named cause
  (`Exchanges.ConnectFails`).
- A flag that is up does not mean that this command was written. When a mutating
  call started with the flag down, an error with the flag up comes from the
  command itself on an open connection, and from the greeting of a reconnect,
  with no copy of the command written, on a closed one.
- The pool looks at whether a connection is closed, not at the flag. After any
  call on a connection in step with its server, the next caller starts at its own
  reply exactly when the flag is down, or when the server refused a chunked request
  (`Pairing.NextStartsAtOwnReplyIff`). Otherwise it gets an earlier reply, and takes
  the flag down although a reply is still owed (`Hazards.LateReply`).
- A request that timed out inside `sendall` leaves the socket open too. The next
  request on it reaches the server exactly if all or nothing of the earlier one
  left (`Delivery.NextRequestArrivesIff`, with a run in `Hazards.BrokenOffRequest`).
  This is stated for payloads below 16 MiB, the second one without zero bytes;
  commands are text.
- A poll interval that ends inside a frame throws away the bytes read so far. A
  polled reader keeps step with the stream exactly when every timeout found its
  frame untouched (`Reads.InOrderIffUntouched`), that is, when no `recv` that timed
  out came after the first one for its frame (`Reads.PolledInOrderIff`). Otherwise
  payload bytes are taken for a size: an event then ends the stream as corrupted
  (`Hazards.PollCorruptsStream`), and bytes that look like a frame are delivered as
  one (`Hazards.PollForgesFrame`).
- A stream gives up on lost connections only after as many losses in a row as the
  policy grants and one more, and each of them has a cause in the script or in what
  the server sent (`Streams.Stream`, `Streams.LossHasCause`). The connection being
  closed is such a cause only if the reconnect before it could not succeed.
- `settimeout` gets a negative number, and raises `ValueError` instead of a timeout
  (`InvalidValue` in the model), exactly when the time runs out between the deadline
  check and the second reading of the clock (`Connections.Connection.ApplyTimeout`).
  A policy with a negative delay does the same to the stream's `sleep`
  (`Streams.Resume`), but not to a request's backoff.
- A scan with a count of zero or less forgets the shard cursor. It then continues
  correctly exactly when the forgotten cursor stood at the start of its shard
  (`ScanWalk.NonPositiveCountRewinds`; `ScanWalk.AskingForNoneRepeats` is a scan that
  delivers a key twice).
- A prefill loses one slot exactly when one of its calls of the factory raises
  (`SyncPool.ConnectionPool.Prefill`).
- Closing the pool of the threaded client can leave an open connection behind
  exactly when a release stands between its look at the closed flag and its put
  (`Pools.CloseStrandsIff`; `SyncPool.ThreadsCanStrand` gets there). Under asyncio
  those two are one stretch and nothing is left behind (`Pools.AsyncShutdown`).

## Model

| member | source | states |
|---|---|---|
| Framing.SizeRoundTrip | fq/_framing.py:14-30 | a size survives its header exactly when it is within the negotiated limit, and is refused otherwise |
| Framing.HeaderIsEncodedSize | fq/_framing.py:19-30 | conversely, every accepted header is the header of the size read from it |
| Framing.HeaderIsBigEndian | fq/_framing.py:14-30 | a header is the size in four bytes, the highest first, both ways; any other number of bytes is refused |
| Framing.ReadCutFrame | fq/sync/connection.py:175-201 | a frame cut anywhere before its last byte decodes to nothing |
| Framing.ReadingUndoesFraming | fq/sync/connection.py:175-201 | a stream of frames cut at any byte reads as exactly the frames that arrived whole, in order, and then a lost connection |
| Framing.WholeFrames | fq/sync/connection.py:186-201 | the number it returns is the largest number of frames that fit in the bytes before the cut |
| Framing.FrameIsInjective | fq/_framing.py:14-16 | a byte stream starts with at most one frame: two ways to take one off agree |
| Framing.FramedPrefix | fq/sync/connection.py:175-184 | whole frames taken off a stream of framed payloads are its first payloads, and the rest is the other ones framed |
| Text.SplitUndoesJoin | fq/_responses.py:83-89 | splitting at the delimiter gives back the joined fields when none contains it |
| Text.JoinUndoesSplit | fq/_responses.py:83-89 | joining the fields of a split gives back the body |
| Text.NumberUndoesDecimal | fq/_responses.py:65-70 | every printed number is accepted and read as itself |
| Text.NumberHasPlaces | fq/_responses.py:65-70 | digits further left count ten times as much: the value of two digit strings in a row |
| Responses.SplitUndoesTag | fq/_responses.py:32-38 | a payload splits into the tag and body it was made of, with delimiters allowed in the body |
| Responses.OkDataByTag | fq/_responses.py:54-62 | every payload, with its first delimiter or without one: a body, a server error, or malformed |
| Responses.ErrorRoundTrip | fq/_responses.py:41-51 | a server error reaches the caller under its own code exactly when that is at most 9999; any other is a corrupted response |
| Responses.ErrorByCode | fq/_responses.py:41-51 | every error body: its own code exactly if the first field is a number of at most four digits in value, otherwise a corrupted response |
| Responses.HelloRoundTrip | fq/_responses.py:122-135 | a printed greeting parses to itself unless it offers a message size of zero, which is refused |
| Responses.HelloAccepts | fq/_responses.py:122-135 | a greeting is accepted if and only if it has four fields, two numbers, the second positive, a bit and a text, and then each parameter is what its field says |
| Responses.ScanRoundTrip | fq/_responses.py:190-201 | a printed scan page of any length parses to the same cursor and keys |
| Responses.ScanAccepts | fq/_responses.py:190-201 | a scan body is accepted if and only if it is a cursor followed by pairs whose second field is a number, and the page is those pairs in order |
| Responses.QuotaInfoRoundTrip | fq/_responses.py:167-187 | a printed quota with any number of clients parses to itself |
| Responses.QuotaInfoAccepts | fq/_responses.py:167-187 | a quota body is accepted if and only if it is three numbers followed by whole triples whose last two fields are numbers, and the result is what the fields say |
| Chunked.ChunkAssembler.Feed | fq/_chunked.py:20-45 | one frame changes the collected body and answers as the step function says, for every tag and for malformed frames |
| Chunked.FeedGroup | fq/_chunked.py:20-45 | a reply spread over frames yields one answer, read off all frames at once, and nothing of it is carried on |
| Chunked.FeedingMeansCutting | fq/_chunked.py:20-45 | over any sequence of well-tagged frames, feeding one by one equals cutting at terminators and concatenating |
| Chunked.ChunkRoundTrip | fq/_chunked.py:20-38 | a body cut into any pieces comes back whole, delimiters inside pieces included |
| Chunked.RefusedFrameIsSkipped | fq/_chunked.py:30-45 | a frame without a known tag is refused wherever it comes, and the frames around it give what they give without it |
| Chunked.GroupsAgree | fq/_chunked.py:14-45 | two replies at the head of the same frames are the same reply |
| Fnv.Fnv1aShard | fq/_sharding.py:19-25 | the loop computes the byte-by-byte digest, and the index it returns is always a valid shard |
| Fnv.MaskIsModulo | fq/_sharding.py:16-23 | the mask, bit by bit, is reduction modulo a power of two |
| Fnv.RoundChangesLowByte | fq/_sharding.py:23 | a round changes the lowest byte by the key byte, and multiplies after that |
| Fnv.KnownDigests | fq/_sharding.py:14-23 | digests of the reference hash for three keys |
| Fnv.XorTouchesLowBits | fq/_sharding.py:23 | xor with a number below 2^k leaves all higher bits alone and commutes with reduction |
| Fnv.MaskOnceAtTheEnd | fq/_sharding.py:19-25 | masking after every byte gives the same digest as never masking and reducing once |
| Fnv.RoundIsPermutation | fq/_sharding.py:21-23 | for a fixed byte a round permutes the 32-bit states: it has a two-sided inverse |
| Fnv.RoundSeparatesBytes | fq/_sharding.py:21-23 | from one state, different bytes lead to different states |
| Fnv.DigestKeepsApart | fq/_sharding.py:21-23 | different states stay different through any number of equal bytes |
| Fnv.OneByteSeparates | fq/_sharding.py:21-23 | keys that differ in exactly one byte never have the same digest |
| Sharding.GroupByShard | fq/_sharding.py:37-46 | grouping fails exactly when the function names no existing shard for some key; otherwise each shard's list is its share, no share is missing, and the shards come in the order of their first keys |
| Sharding.ShareIsExact | fq/_sharding.py:28-46 | a share lists exactly the positions routed to its shard, in increasing order |
| Sharding.OrderIsFirstCome | fq/_sharding.py:37-46 | exactly the shards with a share are in the order, once each, the one whose share begins earlier first |
| Sharding.RepeatsWithinShare | fq/_sharding.py:37-46 | a key repeats an earlier one of the call if and only if it does so within its share |
| Sharding.ShareCoversKey | fq/_sharding.py:37-46 | a shard is asked about a key of its own if and only if the caller asked about it |
| Sharding.CursorRoundTrip | fq/_sharding.py:49-70 | a made cursor parses to its shard and shard cursor, colons in it included, and is refused if the shard cursor was empty |
| Sharding.CursorAccepts | fq/_sharding.py:49-62 | every cursor, with its first colon or without one: the start, a shard and its cursor, or malformed |
| Sharding.MadeCursorEndsTheWalk | fq/_sharding.py:65-70 | a made cursor is "0" exactly when the index is past the last shard |
| MultiDelete.MDelMeaning | fq/sync/sharded.py:112-120 | deleting in order answers true exactly for the first occurrence of each present key and removes all listed keys |
| MultiDelete.ResultAt | fq/sync/sharded.py:119-120 | the result gathered at a position says whether the key was there and not listed before, across all shards |
| MultiDelete.KeyAfterwards | fq/sync/sharded.py:111-117 | after all shares, a key is left with its value exactly if it was there and not listed |
| MultiDelete.GatheredIsUnsharded | fq/sync/sharded.py:103-122 | answers gathered by position and the merged stores equal one left-to-right delete on one map |
| MultiDelete.ShardedClient.DeleteShare | fq/sync/sharded.py:111-120 | one round deletes one share on one shard, writes its answers to their positions and nothing anywhere else; it raises exactly what the shard does, or a ValueError for a wrong count |
| MultiDelete.ShardedClient.MDelete | fq/sync/sharded.py:103-122 | a completed call is the unsharded delete; shards are asked in the order of their first keys, and the first one that does not answer ends the call with its error: earlier shares are deleted, later shards are not asked; an unroutable key stops it before any shard is asked |
| MultiDelete.Scatter | fq/sync/sharded.py:119-120 | in place, the answers go to the share's positions and no other position changes |
| ScanWalk.Walk | fq/sync/sharded.py:287-312 | the loop computes the recursive walk, malformed cursors and failing shards included; it returns at most as many keys as asked for if no page exceeds what was wanted, and fewer only at a shard's own cursor or past the last shard |
| ScanWalk.WalkFollowsTrail | fq/sync/sharded.py:293-312 | a walk asks shard after shard for exactly what is still wanted, each later one from its start; it fails as the first shard that fails, and otherwise returns all their keys and a cursor that is the last one's or the next shard's start |
| ScanWalk.WalkKeepsCount | fq/sync/sharded.py:296-298 | if no page holds more keys than were wanted, a walk returns at most the count |
| ScanWalk.WalkFallsShort | fq/sync/sharded.py:300-312 | a walk that returns fewer keys than asked for was stopped by a shard's own cursor, having asked it for all that was still wanted, or is past the last shard |
| ScanWalk.CursorStandsFor | fq/sync/sharded.py:300-310 | a returned cursor stands for exactly the rest of its shard and all later shards |
| ScanWalk.WalkSplitsTheScan | fq/sync/sharded.py:287-312 | with a positive count, a walk hands out a prefix of what is left, and its cursor stands for the rest and is strictly nearer to the end |
| ScanWalk.Paged | fq/sync/sharded.py:287-312 | feeding cursors back until "0" terminates for any positive counts and delivers exactly what was left at the start |
| ScanWalk.PagingCompletes | fq/sync/sharded.py:287-312 | if no shard call fails, no returned cursor is ever refused and the paging reaches its end |
| ScanWalk.PagingIsOneScan | fq/sync/sharded.py:287-312 | from "0" the pages add up to the full scans of all shards in shard order, nothing lost or repeated |
| ScanWalk.NonPositiveCountRewinds | fq/sync/sharded.py:296-312 | with a count of zero or less the shard cursor is dropped, which is correct if and only if it stood at the start of its shard |
| ScanWalk.AskingForNoneRepeats | fq/sync/sharded.py:296-312 | a faithful shard and three calls, one of them for no keys, that deliver a key twice |
| Reconnect.CeilingGrows | fq/_reconnect.py:27-31 | the delay ceiling never shrinks with the attempt number and never exceeds the configured maximum |
| Reconnect.CeilingDoubles | fq/_reconnect.py:27-31 | the first ceiling is the initial delay, or the maximum if that is smaller; each attempt multiplies it, up to the maximum |
| Reconnect.DelayIsJittered | fq/_reconnect.py:27-31 | a delay lies between zero and the ceiling, and reaches it only when the ceiling is zero |
| Reconnect.EveryDelayIsDrawn | fq/_reconnect.py:31 | every delay below the ceiling is drawn by exactly one random number, its fraction of the ceiling |
| Reconnect.ClampEndsAtDeadline | fq/_reconnect.py:68-74 | a delay that fits before the deadline is left alone, a longer one ends there, and past it none is left |
| Connections.Connection.ApplyTimeout | fq/sync/connection.py:203-208 | the outcome is a function of the script and the clock; a negative timeout raises exactly when the time runs out between the two readings; passing it leaves time on the deadline |
| Connections.Connection.WriteRequest | fq/sync/connection.py:159-173 | at most one frame is started, exactly when nothing stops the request before the socket; size errors come before everything else and before the closed check; the outcome is the one the script prescribes; the flag goes up if and only if `sendall` succeeded or timed out, so a broken socket leaves it as it was |
| Exchanges.RequestByFault | fq/sync/connection.py:159-173 | without a deadline, a request that fits comes to what the script does to `sendall`: it leaves, times out or loses the connection, and raises the flag unless the socket broke |
| Exchanges.AnswerLost | fq/sync/connection.py:105-124 | a call on an open connection, chunked or not, loses it only by a fault, by its deadline, or because the server's bytes end before the reply does |
| Connections.Connection.ReadExactly | fq/sync/connection.py:186-201 | the loop computes the read that the script prescribes |
| Reads.PullTakes | fq/sync/connection.py:186-201 | over any pieces, exactly the asked-for bytes are taken off the stream; a read that fails has taken fewer; without faults it fails only if fewer are there |
| Reads.PullReadsOn | fq/sync/connection.py:186-201 | a read goes on as long as each `recv` brings bytes, and raises what the last one did: a timeout, or a lost connection if it failed or nothing was left |
| Reads.FramePullTakes | fq/sync/connection.py:179-184 | a frame read is the head of the byte stream; a read that fails breaks off inside the frame at the head; without faults it fails exactly as the stream says |
| Reads.FrameReadsOn | fq/sync/connection.py:175-184 | the same for a whole frame, unless its header is malformed |
| Reads.TimeoutDropsIff | fq/sync/connection.py:186-192 | a timeout drops bytes exactly when it was not the first `recv` for its frame that timed out |
| Connections.Connection.ReadFrame | fq/sync/connection.py:175-184 | the outcome is the one the script prescribes, on an open socket; a closed one is refused at once; reading starts with time left on the deadline |
| Connections.Connection.ReadReply | fq/sync/connection.py:107-119 | a frame of a reply is taken off the stream whole, or reading breaks off inside it |
| Connections.Connection.Send | fq/sync/connection.py:105-111 | a normal return means one whole frame left, one frame was taken and the flag is down; an error after a whole frame leaves the flag up and breaks off inside the reply; the outcome is the one the script prescribes, and the flag is up after it exactly if the call failed and it was up or the request raised it |
| Exchanges.AnswerArrives | fq/sync/connection.py:105-124 | a call with time enough and no fault to come takes the next reply, one frame or a whole group, off the stream, for any pieces in which it arrives, leaves the rest and answers what it means |
| Exchanges.ChunksArrive | fq/sync/connection.py:117-124 | a group of frames that is there is read to its end, in any pieces, and answers its bodies in a row or its error |
| Connections.Connection.ReadChunked | fq/sync/connection.py:117-124 | the loop comes to what feeding the scripted frames one by one comes to; it ends with one whole group and its answer, or breaks off inside a frame of it, or at a frame without a known tag |
| Connections.Connection.SendChunked | fq/sync/connection.py:113-124 | the same as for a single frame, with the group of frames up to the first terminator: the scripted outcome, and the flag exactly |
| Connections.Connection.NextFrame | fq/sync/connection.py:139-148 | a poll yields the frame at the head of the stream or breaks off inside it; yielding nothing happens only when polling, and drops bytes exactly when the interval ended after the frame had begun to arrive |
| Reads.PollArrives | fq/sync/connection.py:139-148 | a frame that is there is yielded, in any pieces, if nothing fails and the interval is longer than what is to come |
| Reads.PollYieldsNothing | fq/sync/connection.py:139-148 | yielding nothing takes a `recv` that timed out, or an interval that has passed |
| Connections.Connection.Follow | fq/sync/connection.py:139-148 | what is yielded is the stream up to the read that failed, as frames in order with the gaps that timeouts left inside frames, each empty exactly if its poll found the frame untouched; it raises what that read raises; without faults and polling it ends exactly as the stream says |
| Connections.Connection.OpenStream | fq/sync/connection.py:126-148 | if the request fails, it yields nothing, reads nothing and raises what the request does; otherwise the request left whole, and what is yielded and raised is as for `Follow` |
| Reads.InOrderIffUntouched | fq/sync/connection.py:145-148 | the frames yielded are the first of those sent and what is unread is the others, if and only if every timeout found its frame untouched |
| Reads.PolledInOrderIff | fq/sync/connection.py:145-148 | the same as a condition on the script: for every poll that yielded nothing, the interval ended before or during the first `recv` for the frame |
| Reads.BytesAccountedFor | fq/sync/connection.py:145-148 | the bytes of the frames yielded, of the gaps and of what is left add up to the stream |
| Reads.HeardExactly | fq/sync/connection.py:139-143 | without gaps the stream reads as the frames yielded and then the rest |
| Hazards.PollForgesFrame | fq/sync/connection.py:145-148 | two polls: the first loses a header to its timeout, the second yields a frame that nobody sent, for every payload that is a frame |
| Hazards.PollCorruptsStream | fq/sync/connection.py:145-148 | two polls: the first loses a header to its timeout, the second reads the payload's first bytes as a size beyond the limit and raises a corrupted response |
| Connections.Connection.Negotiate | fq/sync/connection.py:150-157 | a greeting is accepted if and only if it parses and speaks this version, whatever else it asks for; then its parameters are in force; otherwise the parser's error or a corrupted response |
| Connections.Connection.Handshake | fq/sync/connection.py:150-157 | success means one whole greeting, a lowered flag, and the negotiated limits in force; failure changes no limit; the outcome is the scripted one: the exchange within the connect timeout, and then what the greeting amounts to |
| Connections.Connection.Connect | fq/sync/connection.py:59-87 | the outcome is the scripted one: the dial, then the greeting, with the parameters and what is left to read; success is a fresh socket just greeted; a failed dial changes nothing; a failed greeting leaves the connection closed; every error has a cause |
| Exchanges.ConnectArrives | fq/sync/connection.py:59-87 | a connect succeeds if the server greets acceptably, the greeting arrives within the connect timeout and nothing fails; what follows the greeting is left to be read |
| Exchanges.ConnectFails | fq/sync/connection.py:59-87 | a connection error comes from a fault, the connect timeout or a server without a whole frame; any other from a greeting that is not acceptable, a greeting of ours beyond the limit, the timeout at the wrong moment, or the end of the script |
| Connections.Connection.Reconnect | fq/sync/connection.py:89-92 | exactly one dial unless interrupted, at most one greeting, on a new socket and only after a dial; after a failure the connection is closed; the outcome and the causes of errors are as for `Connect` |
| Pairing.TakesNextReply | fq/sync/connection.py:105-124 | with a server that answers in order, a completed call takes exactly the reply to its own request |
| Pairing.EveryCallGetsItsOwnReply | fq/sync/connection.py:105-124 | over any run on one socket, each completed call returns its own reply, and a lowered flag means one reply consumed per request |
| Pairing.NextStartsAtOwnReplyIff | fq/sync/pool.py:95-101 | after any call on an idle link in step, the next reader starts at its own reply if and only if the flag is down or the refusal of a chunked request was read; otherwise bytes of an earlier reply come first |
| Pairing.LateReplyGoesToNextCall | fq/sync/pool.py:95-101 | when nothing of the last reply had arrived, the next call returns its own if and only if the flag was down, and otherwise the late one, taking the flag down with its own still owed |
| Hazards.LateReply | fq/sync/connection.py:105-111 | a run: the request leaves whole, the read times out, the flag is up and the socket open, and the next completed send returns the first reply |
| Pairing.InStepExpects | fq/sync/connection.py:105-124 | on an idle socket in step with its server a completed call can return only the next reply, and leaves the link in step |
| Pairing.ServersInStepAnswer | fq/sync/connection.py:59-87 | servers that greet and then answer in order answer the command that follows a reconnect |
| Delivery.ReceivedIsCompleted | fq/sync/connection.py:159-173 | a server decodes exactly the frames that were written whole; partial copies decode to nothing |
| Delivery.DeliveriesAreCopies | fq/sync/connection.py:159-173 | over all sockets together, the servers receive a payload as often as it was written whole |
| Delivery.NextRequestArrivesIff | fq/sync/connection.py:164-173 | on a socket that carried whole frames, a request written after another one reaches the server if and only if all or nothing of that one left |
| Delivery.SwallowsNext | fq/sync/connection.py:164-171 | after a part of a frame, the next frame is in no reading of the stream |
| Hazards.BrokenOffRequest | fq/sync/connection.py:164-169 | a run: a request times out inside `sendall` with part of it sent, the flag is up and the socket open, and the next request, written whole, is not received |
| Clients.Client.Wait | fq/sync/client.py:351-353 | the sleep is the jittered delay cut off at the deadline, and it fits between the start and the deadline |
| Clients.Client.Backoff | fq/sync/client.py:349-354 | the same with the checks around it: a backoff that returns slept that long and left time on the deadline; one that raises ran out of time or out of script; without a deadline it sleeps the whole jittered delay and does not fail while the script lasts |
| Clients.Client.Recover | fq/sync/client.py:340-347 | after the pause and exactly one dial, either a fresh socket just greeted or a closed connection; no copy of the command leaves, only the greeting can raise the flag; what it raises is a failed backoff or what the reconnect did, unless that just lost the connection |
| Recoveries.BrokenSendLosesFirst | fq/sync/client.py:333-340 | an open connection without a deadline, `sendall` failing, the flag down or the command read-only, budget left: the call goes on to its backoff, and dials right after that |
| Recoveries.ClosedConnectionLosesFirst | fq/sync/client.py:333-340 | the same for a connection that is found closed |
| Recoveries.Regain | fq/sync/client.py:342-347 | connecting to a server that greets acceptably and has a reply succeeds, and nothing happens to the next send, which returns that reply |
| Clients.Client.TrySend | fq/sync/client.py:328-338 | the outcome of the send and the flag are the scripted ones, and the decision follows from them alone: it is tried again if and only if it lost the connection, no copy of a mutating command can have left, and budget remains; a reply that ends the loop is the server's |
| Clients.Client.Attempt | fq/sync/client.py:327-347 | going round again means that no copy left, budget remains and one reconnect was made; a lost connection is raised only with the flag up on a mutating command or with the budget spent; one send, at most one dial, and at most one frame for each; what ends the call is the scripted outcome of a send, a failed backoff or what a reconnect raised; an attempt to which nothing happens ends it with the reply, and one that can recover goes on to a connection that will answer |
| Clients.Client.WithRetry | fq/sync/client.py:319-347 | at most one whole copy of a mutating command, exactly one on success, none after an error with the flag down or the connection closed; an error tells which request raised the flag; the result is a reply of the server in use to this command and the link stays in step; one dial between each two sends, at most one frame for each send and each dial, and the command's own payload begun at most once for each send; at most N+1 sends and N dials; a lost connection comes out only with the flag up on a mutating command or with all N+1 sends used; any other end is a scripted outcome of a send, a backoff or a reconnect; sleeps stay within the deadline; the rounds that fit before it are bounded; a call to which nothing happens returns the next reply after one send; one that loses its connection in a way that may be retried and finds a server that answers returns that server's reply after two |
| Clients.Client.Execute | fq/sync/client.py:307-317 | the servers see a mutating command at most once more, exactly once more if it is answered; the result is the parsed reply; an answered call leaves the connection idle, in step and with whole frames only; the time slept never exceeds the timeout; a call to which nothing happens, or that recovers from its first loss, is answered, and any other ends as in `WithRetry`, with the deadline counted from the first reading of the clock |
| Clients.Client.ExecuteTwice | fq/sync/client.py:307-317 | two answered calls on one connection: the servers received the command exactly twice and each result is the reply to its own request |
| Streams.Hear | fq/sync/client.py:372-380 | the events are the frames that came off the socket, in order and with gaps only inside frames; after each poll without a frame the stop flag is looked at once, and the first look that finds it up ends the subscription; otherwise it ends with the outcome of the last poll, or at a frame the parser rejects; without faults and polling it ends as the byte stream or the parser says |
| Streams.LossHasCause | fq/sync/client.py:372-383 | a subscription that ends in a connection error, polling or not, found the connection closed, met a fault, came to the end of the server's bytes, or has a parser that raises one |
| Streams.LossIsProper | fq/sync/client.py:372-383 | without faults and polling, such a subscription has delivered exactly the frames of its stream, or those up to the rejected one; a closed connection counts as an empty stream |
| Streams.Listen | fq/sync/client.py:368-382 | one subscription, exactly: a stop asked for first, or the scripted outcome of the request and nothing heard, or a request that left and an end as for `Hear`; the log holds one more request if and only if it got as far as the socket; without faults and polling a lost one ends as its stream does |
| Streams.Resume | fq/sync/client.py:388-393 | the stream sleeps exactly the jittered delay, dials once, and is then what the scripted reconnect leaves, freshly greeted or closed; a negative delay raises ValueError before any sleep or dial; connection errors of the reconnect are swallowed, and what is raised has its cause in the script, the delay or the reconnect |
| Streams.ReopenedThere | fq/sync/client.py:388-393 | the next subscription starts on the dialled server's stream after its greeting if that server can be connected to |
| Streams.NotReopened | fq/sync/client.py:388-393 | it starts on a closed connection only if the reconnect met a fault, the connect timeout or a server without a whole frame |
| Streams.AfterLoss | fq/sync/client.py:383-393 | a lost connection is raised exactly as the budget says, as the error of the subscription; otherwise one nap and one dial are added to the record; any other error has its cause |
| Streams.Stream | fq/sync/client.py:356-393 | the trace is what genuine subscriptions deliver: each starts where the one before and a reconnect left off in the script, ends in one of the ways of `Listen`, and is followed by a loss exactly if that is a connection error; each request that reached a socket is in the log; each loss but the last was followed by one dial and the sleep for its place in its row; a connection error comes out only after N+1 losses in a row with no event between, and is the last of them; without faults and polling every loss is one that the server's bytes account for; any other error after a loss comes from the end of the script, a negative delay or a reconnect that raised it |
| Pools.EveryInterleaving | fq/sync/pool.py:51-101 | from construction or a prefill, in every interleaving: slots and hands add up to the size while open, a put finds room, no connection is in two places, open connections never exceed the size |
| Pools.StepConserves | fq/sync/pool.py:51-101 | each atomic action of each caller keeps the number of slots accounted for |
| Pools.StepKeepsExclusive | fq/sync/pool.py:51-101 | each atomic action keeps every open connection in exactly one place |
| Pools.CloseStrandsIff | fq/sync/pool.py:70-101 | with threads, closing can leave an open connection in the queue if and only if a release is between its check and its put |
| SyncPool.ThreadsCanStrand | fq/sync/pool.py:70-101 | a pool of one slot gets there in four steps |
| Pools.CleanCloseClosesAll | fq/sync/pool.py:70-101 | otherwise, once close has returned and nobody holds a connection, every connection ever opened is closed |
| Pools.StretchKeepsAwait | fq/aio/pool.py:88-94 | code between two awaits never leaves a release half done |
| Pools.AsyncShutdown | fq/aio/pool.py:47-94 | once aclose has returned and no connection is held or being opened, every connection ever created is closed |
| SyncPool.HotConnectionGoesFirst | fq/sync/pool.py:15-19 | a connection just put back is the next one handed out |
| SyncPool.LostConnectionLeavesRoom | fq/sync/pool.py:95-101 | a connection lost in use goes back as room for a new one |
| SyncPool.ReopenedConnectionGoesBack | fq/sync/pool.py:95-101 | one that was lost and reopened in use goes back as it was |
| SyncPool.NobodyStarves | fq/sync/pool.py:51-101 | in every reachable state of an open pool a waiting caller can take a slot at once, or as soon as any one caller puts its own back, which each of them can do alone |
| SyncPool.ConnectionPool.constructor | fq/sync/pool.py:21-31 | a new pool is the start state with every slot vacant |
| SyncPool.ConnectionPool.GiveUp | fq/sync/pool.py:41-44 | closes exactly the connections opened so far and puts one vacant slot back for each |
| SyncPool.ConnectionPool.Prefill | fq/sync/pool.py:33-49 | a new pool ends up prefilled in order, and keeps its slots, if and only if none of the factory calls it makes fails; the first factory error ends it, closes what was opened and loses exactly one slot |
| SyncPool.ConnectionPool.Acquire | fq/sync/pool.py:51-63 | each outcome is a run of the interleaving model: idle connection, opened connection, failed opening, giving up; a vacant slot is opened exactly if the factory does not fail; closed and empty pools raise and change nothing |
| SyncPool.ConnectionPool.Release | fq/sync/pool.py:95-101 | the connection goes back, or is closed if the pool is, as two steps of the interleaving model |
| SyncPool.ConnectionPool.Close | fq/sync/pool.py:70-83 | closing drains and closes everything queued, as steps of the interleaving model; a second close changes nothing |
| FanOut.StepKeepsFifo | fq/sync/sharded.py:318-343 | each action of each thread keeps the queue first in, first out and the consumer passing on all it takes |
| FanOut.StepKeepsVigil | fq/sync/sharded.py:327-340 | while the consumer reads, a worker that has finished has its error still queued |
| FanOut.StepWindsDown | fq/sync/sharded.py:323-326 | once the stop flag is up, no worker queues more than one further item |
| FanOut.EveryInterleaving | fq/sync/sharded.py:314-347 | in every interleaving: per shard, what was yielded followed by what is queued is what its worker produced; an error is raised only after everything queued before it; no worker dies unnoticed |
| FanOut.QueueIsDelivered | fq/sync/sharded.py:336-343 | a reading consumer can have everything queued before a failure, in order |
| FanOut.FailureIsRaised | fq/sync/sharded.py:336-346 | a queued failure is raised once everything before it has been yielded, and stops the workers |
| FanOut.WorkersRunAhead | fq/sync/sharded.py:318-326 | workers never wait for the consumer: any events of theirs can be queued before it takes one |
| FanOut.EveryMergeCanHappen | fq/sync/sharded.py:318-343 | no order among the shards is excluded: any events of theirs can be yielded in any order, and then any shard's failure raised |
| FanOut.StoppedWorkersFinish | fq/sync/sharded.py:323-326 | once the stop flag is up, every worker can finish in one step of its own |

## Left out

- Clients.Client.Execute: takes the connection the pool hands out as given; waiting for a slot is in the pool models.
- Clients.Client.Execute: the delivery counts and the reply clause are for a connection whose socket carried only whole frames and owed no reply; what happens on the others is stated by Pairing.NextStartsAtOwnReplyIff and Delivery.NextRequestArrivesIff.
- Clients.Client.WithRetry: that a call is answered after all is stated for one loss and no deadline; after more losses, or with a deadline, its result is pinned by the scripted outcome of each send, backoff and reconnect.
- Delivery.NextRequestArrivesIff: for payloads below 16 MiB, the second one not empty and without zero bytes; beyond that, what a server makes of the mixed bytes depends on them.
- Hazards.LateReply: the second call is stated for the case that it completes; the first is determined by the script.
- Clients.Client.WithRetry: without a limit on attempts the number of rounds is bounded by the deadline and the minimal duration of an operation; with neither bound the call may go on for ever, which the finite scripts show as an interrupt.
- Reconnect.CeilingGrows: over the reals; the float power in the source overflows at attempt 1025 with the default settings.
- SyncPool.ConnectionPool.Acquire: called by one caller at a time, so an empty queue always times out; waiting and waking up are steps of the interleaving model.
- Pools.AsyncShutdown: the asyncio pool is a step machine only, without a class of its own, and with no prefill running.
- FanOut.EveryInterleaving: threads are interleaved steps; starting, joining and the join's time limit are not part of it.
- Wall-clock bounds on a whole call: a reconnect uses the connect timeout and every read gets the full remaining time, so the code gives none; only the time slept is bounded.
- Real sockets, TLS, name resolution, address splitting and certificate loading, which are outcomes in the script.
- The asyncio client, connection and sharded client, which repeat the threaded loops; there a connect timeout ends the call instead of being retried.
- The fq server, except for the order of deletes and the promise about scan pages.
- The single-response parsers that only copy fields, the statistics in JSON, the per-command methods and the building of command lines.
- Text as Unicode: text is its UTF-8 bytes, digits are ASCII, replacement of undecodable bytes and Python's limit on digits of a number are not modelled.
- Generators closed or exceptions thrown in by the consumer of a stream, except as the fan-out's abandoned consumer.
