# Verified models of the browser runtime's algorithms

The runtime re-implements Node's modules in a browser tab. Most of it forwards
calls; this project is about the parts that are complete algorithms, written
again in Dafny with the code's own branches, constants and error cases, and
proved against what they promise.

| files | what they model |
|---|---|
| TcpModel, TcpConn, TcpLifecycle, TcpDelivery, TcpNetwork, TcpSends, TcpArrival, TcpClosing, TcpExchange | the userspace TCP connection: its transition functions, the object that performs them, its life over every run, the bytes it delivers over a network that may lose, duplicate and reorder, what each arrival leads to and answers, what acknowledgements, FINs and resets mean there, and what two connections do together |
| Deframer, Packets, NetworkStack | length-prefixed frames, packet building and the internet checksum, the connection table and port allocator |
| Lcs, GitDiff | the two-row longest-common-subsequence diff and its optimality |
| Paths | the two path normalizers and resolvers |
| MemfsTree, MemfsSpec, MemfsOps, Memfs, MemfsDescriptors, MemfsWriters, MemfsGap, MemfsSnapshot, FsRemove | the in-memory file system: inode tree, flat map of paths, mutation journal and what a late consumer misses, descriptors, snapshot, recursive removal |
| HandleTable | the N-API handle table with scopes and references |
| Sha256 | the synchronous SHA-256 |
| Bitwise, BlockList | masks and big-endian numbers, and the address block list |
| ChildProcess | exit, close, kill and loss of child processes over the microtask queue |
| PackageExports, Semver | conditional exports and star patterns, version ranges |
| Words, Numerals | fixed-width integers, byte order, decimal and hexadecimal text |

An object of the code is a class whose methods are proved equal to functions on
a value of its fields; the properties are then lemmas about those functions, over
every run where the code has runs. `dafny verify dfyconfig.toml` checks the whole
project.

## How the code is read

- JavaScript numbers are unbounded integers; `>>> 0`, `& 0xffff`, typed-array
  stores and signed bit operators are written out where they act. The numbers
  stay in the range that a double holds exactly, but for those read from the text
  of a version: the version ranges are about numbers below 2^53.
- The random initial sequence number and packet identification, the result of
  a command or module, timers firing, and segments arriving are chosen by the
  environment. The content hash is a parameter: nothing depends on which function it is.
- A `map` has no order. Where the code iterates a `Map` the model visits the
  entries in any order.
- The connection model sees segments after parsing; Packets shows that a
  segment sent is the segment parsed on the other side.

## Where the code differs from what one might expect

- `_simpleDiff` above 5000 lines is a valid script but a minimal one exactly
  when the files share no line. Its comment speaks of divide and conquer; the
  code keeps a full direction matrix instead.
- In a changed block `_simpleDiff` lists the insertions before the deletions, except above 5000 lines.
- The padding of `_sha256` is the standard's exactly below 2^29 bytes, because the length is
  stored in 32 bits; below that the digest is SHA-256.
- `tcpSeg` round-trips exactly up to 40 bytes of options, because the data offset is stored in four bits.
- Any ACK in FIN_WAIT1 counts as covering the FIN. The wait ends with the FIN unacknowledged
  exactly if the acknowledgement number is not the next one to send, as for two sides that
  close at once, which skip CLOSING and its wait for an acknowledgement.
- A reset is looked at in SYN_SENT, SYN_RCVD and ESTABLISHED only. In LAST_ACK and SYN_RCVD
  its ACK counts first: the one sent by `destroy` closes the former and establishes the
  latter; in the other states it closes nothing.
- A FIN is taken whatever its number. The stream it ends is complete exactly if the number
  is the receiver's next one.
- A body that throws emits 'error' before it exits. With no 'error' listener that emit throws
  in turn (napi-bridge/eventemitter.js:165-175), and the child never exits or closes unless it is
  killed: its table entry stays unsettled.
- A `kill` after the exit overwrites `exitCode` and `signalCode` of the
  child object, while the events and the process table keep the first pair.
- A reference made on a freed handle, or a scoped handle freed directly, lets
  two values share one handle; both exact conditions are proved.
- `rename` into the source's own subtree takes the subtree out of the namespace.
- The comments in `close` of a descriptor speak of trimming the content; the code keeps its length.
- `getJournalSince(0)` never reports a gap; it brings a consumer up to date exactly if the
  records returned account for every inode there is, as they do when nothing was dropped.
- `pickConditionalTarget` can return an empty text, exactly for the target that is the empty text.

## Model

| member | source | states |
|---|---|---|
| TcpNetwork.Delivery | napi-bridge/gvisor-net.js:397-509 | Over every run of two connections and a network that drops, duplicates and reorders segments, with fewer than 2^32 bytes accepted on each side: what either socket was handed is at every moment a prefix of what the other side's `write` accepted |
| TcpNetwork.NetRunInv | napi-bridge/gvisor-net.js:397-632 | Every state of every network run keeps both connections' invariants and the relation between a sender's stream and its peer's progress |
| TcpNetwork.NextBytes | napi-bridge/gvisor-net.js:434-439 | Below 2^32 bytes, an arriving chunk whose number is the receiver's next one continues exactly where the receiver stands in the sender's stream, old duplicates included |
| TcpDelivery.SenderStream | napi-bridge/gvisor-net.js:545-621 | Over every run of one connection, whatever arrives: payload bytes sent, then the send buffer, are the accepted bytes in order, and every chunk has at most 1460 bytes and is numbered by its place in the stream |
| TcpDelivery.ChunksSend | napi-bridge/gvisor-net.js:545-555 | Sending data puts exactly its bytes on the wire, in consecutively numbered chunks, and leaves everything but the wire and the next number alone |
| TcpDelivery.ChunksAre | napi-bridge/gvisor-net.js:545-555 | Some data goes out in exactly as many chunks as it takes, chunk k being bytes 1460 k up to the next multiple or the end, pushed exactly if it is the last |
| TcpDelivery.FlushSend | napi-bridge/gvisor-net.js:608-612 | Flushing sends exactly the buffered bytes in order and empties the buffer |
| TcpDelivery.SegmentArrives | napi-bridge/gvisor-net.js:397-509 | For any segment in any state: the sent stream is kept, and payload is taken exactly when it is in order in a receiving state, moving the window by its length |
| TcpDelivery.LocalStep | napi-bridge/gvisor-net.js:573-632 | Timers, `write`, `close` and `destroy` keep the stream invariants and do not move the receive side |
| TcpLifecycle.StepInv | napi-bridge/gvisor-net.js:397-632 | Every arrival, timer firing and user call keeps the connection invariant: timer armed exactly in the guarded states, resend counts, registration, no writer in SYN_RCVD |
| TcpLifecycle.RunInv | napi-bridge/gvisor-net.js:397-632 | The invariant holds in every state of every run from an active or passive open |
| TcpLifecycle.RunWalksForward | napi-bridge/gvisor-net.js:397-509 | Each step is a walk along the diagram of section 3.3.2 of RFC 9293, so a change of state strictly raises a fixed rank |
| TcpLifecycle.RunNeverReturns | napi-bridge/gvisor-net.js:397-632 | No state is entered again once left; CLOSED is absorbing and sends nothing |
| TcpLifecycle.RunTimer | napi-bridge/gvisor-net.js:520-606 | The retransmission timer is armed exactly in SYN_SENT, SYN_RCVD, FIN_WAIT1, CLOSING and LAST_ACK, with doubling delay; a connection is registered exactly until it is closed |
| TcpLifecycle.RunResends | napi-bridge/gvisor-net.js:573-596 | A SYN, and a FIN, is sent at most six times: once and five resends |
| TcpLifecycle.RunGivesUp | napi-bridge/gvisor-net.js:580-591 | The timer gives up on exactly the firing that is 1000 * (2^6 - 1) ms after the first send |
| TcpConnection.TcpConn.HandleSegment | napi-bridge/gvisor-net.js:397-509 | In any state and for any segment: the object stays valid, nothing sent is forgotten, bytes sent and buffered are still the bytes accepted, and payload is taken exactly if it is the next one in a receiving state. A reset closes a connection in ESTABLISHED, in SYN_SENT unless with SYN and ACK, and in SYN_RCVD unless with ACK: unregistered, timer off, nothing answered, one more error on the socket. The next state, the answers and what the socket is told are exactly those of `TcpArrival.ArrivalIs` |
| TcpArrival.ArrivalIs | napi-bridge/gvisor-net.js:397-509 | For every segment in every state: exactly what leads to each next state; exactly what is answered (an acknowledgement of payload taken, one of a FIN taken, the own FIN of a socket that is not half-open, and in TIME_WAIT one of a repeated FIN); exactly what the socket is told (connected, payload, end, error); which acknowledgement number is kept |
| TcpArrival.ResetObeyed | napi-bridge/gvisor-net.js:399-435 | A reset that is obeyed closes at once, unregisters, turns the timer off, answers nothing and tells the socket of one error |
| TcpArrival.ResetClosesIff | napi-bridge/gvisor-net.js:397-509 | A segment with the reset flag closes a connection exactly in ESTABLISHED, in SYN_SENT unless it is the answer awaited, in SYN_RCVD without an ACK and in LAST_ACK with one |
| TcpConnection.TcpConn.TransmitChunks | napi-bridge/gvisor-net.js:545-555 | The chunking loop puts the data on the wire in chunks of 1460 bytes each but the last, only the last one pushed, and computes the recursive chunking whose stream `ChunksSend` describes |
| TcpConnection.TcpConn.FlushBuffer | napi-bridge/gvisor-net.js:608-612 | The flush loop computes the flush function |
| TcpConnection.TcpConn.WriteData | napi-bridge/gvisor-net.js:616-621 | `write` accepts in ESTABLISHED, SYN_SENT and SYN_RCVD and throws otherwise; what is accepted is on the wire or buffered, in order, and all on the wire in ESTABLISHED; what was received does not change |
| TcpConnection.TcpConn.CloseConn | napi-bridge/gvisor-net.js:623-626 | One FIN goes out, numbered after all the bytes accepted, exactly from ESTABLISHED or CLOSE_WAIT; elsewhere nothing changes |
| TcpConnection.TcpConn.DestroyConn | napi-bridge/gvisor-net.js:628-632 | One reset goes out unless the connection was closed; it ends closed, unregistered and with the timer off |
| TcpConnection.TcpConn.RtxTimerFires | napi-bridge/gvisor-net.js:580-591 | The guarded segment goes out again and the delay doubles, or, exactly after five resends, the connection is given up with nothing sent; never more than six SYNs or FINs |
| TcpConnection.TcpConn.TimeWaitFires | napi-bridge/gvisor-net.js:598-600 | A TIME_WAIT timer closes and unregisters |
| TcpConnection.TcpConn.OpenActive | napi-bridge/gvisor-net.js:520-529 | An active open makes the object valid, with one SYN of the chosen number sent and the timer armed |
| TcpConnection.TcpConn.OpenPassive | napi-bridge/gvisor-net.js:333-343 | What the stack does with a new connection for a SYN to a listening port makes the object valid, expecting the byte after the SYN, with one SYN+ACK sent, the timer armed and no socket yet |
| TcpExchange.Handshake | napi-bridge/gvisor-net.js:333-426 | The three-way handshake, for any initial numbers: both sides established and in step, timers off, the client's socket connected, the server's built |
| TcpExchange.Refused | napi-bridge/gvisor-net.js:350-356 | The stack's answer to a SYN nobody listens for acknowledges it, and closes the client with one error and nothing further sent |
| TcpExchange.WriteDelivered | napi-bridge/gvisor-net.js:428-446 | All the chunks of a `write` of any length, delivered in order, hand over the whole data; each is acknowledged, the last acknowledgement is of the last byte, and the sides stay in step |
| TcpExchange.PeerCloses | napi-bridge/gvisor-net.js:440-445 | A FIN is acknowledged, ends the stream, and a socket that is not half-open closes in turn |
| TcpExchange.OrderlyClose | napi-bridge/gvisor-net.js:448-507 | Closing against such a peer: it ends CLOSED, the closing side in TIME_WAIT, each FIN acknowledged by number |
| TcpExchange.SimultaneousClose | napi-bridge/gvisor-net.js:448-472 | Both closing at once go to TIME_WAIT with the timer off and the own FIN unacknowledged, for any two sides in step |
| TcpClosing.RunClosing | napi-bridge/gvisor-net.js:397-632 | Every state of every network run keeps the relations between what a side has sent, what the other has taken of it, and what the other acknowledges |
| TcpClosing.PeerResets | napi-bridge/gvisor-net.js:428-433 | Over every network run: a reset of the peer that reaches an established side closes it at once, with nothing answered, what was received kept and one error told; after that no event makes it send anything |
| TcpClosing.PeerDestroys | napi-bridge/gvisor-net.js:564-571 | Over every network run: `destroy` sends one reset with an ACK, and it closes the peer exactly if that is connecting, established or in LAST_ACK; a peer in SYN_RCVD becomes established by it |
| TcpClosing.AcknowledgedIsReached | napi-bridge/gvisor-net.js:534-543 | Over every network run: each acknowledgement number ever sent is a number of bytes its sender has taken, or the receive point after the FIN it took; a FIN taken was sent |
| TcpClosing.WholeChunks | napi-bridge/gvisor-net.js:433-439 | Over every network run: what a side has taken ends where a segment of the peer ends, and is what its socket was handed |
| TcpClosing.FinUnacknowledgedIff | napi-bridge/gvisor-net.js:448-472 | For any connection in FIN_WAIT1 and any segment: the timer is turned off exactly by the ACK flag, and turned off with the FIN unacknowledged exactly if moreover the acknowledgement number is not the next one to send |
| TcpClosing.FinAcknowledged | napi-bridge/gvisor-net.js:448-472 | Over every network run with room for the FIN: if a segment of the peer that is not a reset ends the wait in FIN_WAIT1 with everything acknowledged, the peer has taken the FIN and stands right after it; a peer that has not taken it ends the wait with the FIN unacknowledged |
| TcpClosing.FinTakenNumber | napi-bridge/gvisor-net.js:440-487 | Over every network run: a FIN that is taken leaves the peer right after it exactly if it was the next number or was taken in FIN_WAIT2 |
| TcpClosing.EndOfStream | napi-bridge/gvisor-net.js:440-487 | Over every network run: a FIN ends the stream of the socket, and the socket then has all the bytes the peer's `write` accepted exactly if the number of the FIN was the next one |
| TcpSends.ArrivalSends | napi-bridge/gvisor-net.js:397-509 | For any segment in any state: what goes out, resets aside, acknowledges the receive point after the payload or after the FIN taken; a FIN that goes out is the own one with the next number, from ESTABLISHED or CLOSE_WAIT; and nothing goes out from CLOSED but resets |
| Deframer.FragmentationIndependent | napi-bridge/gvisor-net.js:271-295 | However a byte stream is cut into messages, frames and parser state are those of the whole stream in one message |
| Deframer.DeliversFrames | napi-bridge/gvisor-net.js:256-295 | Frames sent, then any part of a further one, cut anywhere: exactly those frames come out in order, empty ones too, and exactly the undelivered bytes stay |
| Deframer.PartialKept | napi-bridge/gvisor-net.js:278-294 | Part of one frame delivers nothing and the parser keeps every byte of it |
| Deframer.RoundTripLimit | napi-bridge/gvisor-net.js:256-262 | A frame survives exactly when its length fits the 32-bit field |
| Deframer.FrameReader.OnWsData | napi-bridge/gvisor-net.js:271-276 | A message is appended and parsed as far as it goes |
| Deframer.FrameReader.ParseFrames | napi-bridge/gvisor-net.js:278-295 | The parse loop terminates, on empty frames too, and delivers what the parse function says |
| Packets.Cksum | napi-bridge/gvisor-net.js:48-57 | Summing and folding loops compute the ones' complement checksum of the sum modulo 2^32, for odd lengths too; the fold terminates in 16 bits |
| Packets.NoTruncation | napi-bridge/gvisor-net.js:48-57 | Up to 131074 bytes the sum stays below 2^32, so the bit operations lose nothing |
| Packets.VerifiesIff | napi-bridge/gvisor-net.js:48-57 | The checksum is 0 exactly when the words are not all zero and sum to a multiple of 2^16 - 1 |
| Packets.InsertVerifies | napi-bridge/gvisor-net.js:48-57 | Inserting the checksum computed over a zeroed aligned word makes the whole checksum exactly 0 |
| Packets.DetectsWordChange | napi-bridge/gvisor-net.js:48-57 | A verifying sequence still verifies after a change of one aligned word exactly if the change is between 0 and 0xffff and the sum is not 0 |
| Packets.TcpCk | napi-bridge/gvisor-net.js:59-67 | The padded buffer has the checksum of the pseudo header of section 3.1 of RFC 9293 followed by the segment |
| Packets.TcpSeg | napi-bridge/gvisor-net.js:111-126 | The in-place writes build the segment layout of section 3.1 of RFC 9293, options padded with zeros |
| Packets.TcpRoundTrip | napi-bridge/gvisor-net.js:111-160 | A built segment parses back to its fields, offset and payload exactly when the options have at most 40 bytes |
| Packets.ParseIgnoresChecksum | napi-bridge/gvisor-net.js:152-160 | Stamping a checksum does not change what the parser reads |
| Packets.IpPkt | napi-bridge/gvisor-net.js:94-109 | The in-place writes build the header of section 3.1 of RFC 791, whose checksum verifies, and the payload after it |
| Packets.IpRoundTrip | napi-bridge/gvisor-net.js:94-150 | A built packet parses back; its length field is right exactly below 2^16 bytes |
| Packets.IpOptionsSkipped | napi-bridge/gvisor-net.js:145-150 | A header with options of its own is parsed past them, by its length in words |
| Packets.EthFrame | napi-bridge/gvisor-net.js:76-82 | The frame is the destination address, the source address, the type in network order and the payload, byte for byte |
| Packets.EthRoundTrip | napi-bridge/gvisor-net.js:130-134 | A frame of that layout parses back to its addresses, type and payload |
| Packets.Stamp | napi-bridge/gvisor-net.js:511-514 | For any segment, whatever its checksum bytes were: up to the summing limit the stamped segment verifies, and no other byte changes |
| Packets.TxSeg | napi-bridge/gvisor-net.js:511-518 | The frame starts with the two hardware addresses, destination first, and the type of IPv4, then the header of section 3.1 of RFC 791, then the stamped segment; it unwraps to that segment and the two addresses |
| Packets.SendSegment | napi-bridge/gvisor-net.js:111-160 | Built, stamped, wrapped, unwrapped and parsed: the frame is addressed to the destination from the source, the other side reads the same fields and payload, and the checksum verifies |
| NetworkStack.KeyInjective | napi-bridge/gvisor-net.js:254 | Connection keys are equal exactly when local port, remote address and remote port are |
| NetworkStack.PrefixIsPort | napi-bridge/gvisor-net.js:240-252 | The text test `startsWith(p + ':')` holds exactly for the connections on local port p |
| NetworkStack.CycleVisits | napi-bridge/gvisor-net.js:240-252 | The 16384 steps visit each ephemeral port exactly once across the wraparound |
| NetworkStack.NetworkStack.PortHasConn | napi-bridge/gvisor-net.js:246-249 | The loop over the keys finds a connection on the port exactly if there is one |
| NetworkStack.NetworkStack.AllocPort | napi-bridge/gvisor-net.js:240-252 | Gives the first port in cyclic order that no listener and no connection uses; none exactly when every port of the range is in use |
| NetworkStack.NetworkStack.Connect | napi-bridge/gvisor-net.js:710-716 | A new connection takes a fresh port, so its key never replaces another connection |
| NetworkStack.NetworkStack.HandleTcp | napi-bridge/gvisor-net.js:321-348 | A segment goes to the connection with exactly its addresses and ports, else to a listener for a SYN, else a reset is due unless it is one itself |
| NetworkStack.NetworkStack.Remove | napi-bridge/gvisor-net.js:602-606 | Cleaning up removes that connection and no other |
| GitDiff.SimpleDiff | napi-bridge/git-shim.js:88-142 | The script spells the old file with its ' ' and '-' lines and the new one with ' ' and '+'; up to 5000 lines it keeps a longest common subsequence, with the insertions of each changed block before its deletions; beyond that all deletions come first, and it keeps a longest one exactly when the files have no line in common |
| GitDiff.FillDirections | napi-bridge/git-shim.js:103-124 | The two-row program fills the flat matrix with the choice of the full table, every index in range |
| GitDiff.FillRow | napi-bridge/git-shim.js:107-123 | One row of the loop, its 16-bit cells equal to the full table's |
| GitDiff.Backtrack | napi-bridge/git-shim.js:127-140 | The backtrack follows the choices: its reversed output is a script of both files that keeps as many lines as the table says |
| GitDiff.ReplaceAll | napi-bridge/git-shim.js:93-98 | The fallback removes all old lines and adds all new ones |
| GitDiff.FlatIndex | napi-bridge/git-shim.js:112-122 | Distinct cells have distinct indices, all within the matrix |
| Lcs.CellIsUpperBound | napi-bridge/git-shim.js:100-124 | The table cell bounds the length of every common subsequence of the two prefixes |
| Lcs.KeptIsCommon | napi-bridge/git-shim.js:126-142 | Whatever a script keeps is a common subsequence, and it changes everything else |
| Lcs.OptimalScript | napi-bridge/git-shim.js:86-142 | A script that keeps a longest common subsequence has the fewest changes of all scripts of the two files |
| Lcs.EmptyIsLongest | napi-bridge/git-shim.js:93-98 | Nothing kept is longest exactly when the files share no line |
| Paths.LastStep | napi-bridge/memfs.js:121-132 | What each last step of a path does: '', '.' nothing, '..' takes away the last segment if there is one, a name is added; every path is built from such steps |
| Paths.NormalizePath | napi-bridge/memfs.js:121-132 | The loop gives the canonical absolute path of the segments, '.' and '..' resolved |
| Paths.ResolvePath | napi-bridge/memfs.js:139-144 | Relative paths are resolved against the trimmed working directory |
| Paths.Normalize | napi-bridge/browser-builtins.js:430-438 | The module's own normalizer, relative paths staying relative |
| Paths.NormalizeIdempotent | napi-bridge/browser-builtins.js:430-438 | Normalizing twice is normalizing once, and no segment is empty, '.' or '..' |
| Paths.Resolve | napi-bridge/browser-builtins.js:440-453 | The loop from the last part to the first absolute one, as a function |
| Paths.ResolveFromLast | napi-bridge/browser-builtins.js:440-453 | `resolve` starts from the last absolute argument, whatever comes before it, and takes each later one below |
| Paths.Relative | napi-bridge/browser-builtins.js:478-488 | Common prefix, one '..' for each remaining segment of the origin, then the rest of the target |
| Paths.ShortestRoute | napi-bridge/browser-builtins.js:478-488 | No other route of steps up and then down from one path to another is as short |
| Paths.ResolveRelative | napi-bridge/browser-builtins.js:440-488 | For all absolute paths, resolving `relative(from, to)` against `from` gives `resolve(to)` |
| Paths.ResolversAgree | napi-bridge/browser-builtins.js:440-453 | The module's `resolve` and the file system's `resolvePath` agree for every absolute working directory |
| MemfsObject.Memfs.Mkdir | napi-bridge/memfs.js:289-323 | `mkdir` makes one directory exactly if the parent is one and nothing is there, with the code's errors otherwise; no other path changes; one record |
| MemfsObject.Memfs.MkdirAll | napi-bridge/memfs.js:289-323 | Recursive `mkdir` fails exactly if a file stands on the way or at the end, changing nothing; else the path and its ancestors are directories, all else is as before, and there are as many records as new directories |
| MemfsObject.Memfs.WriteFile | napi-bridge/memfs.js:335-379 | Succeeds exactly if the parent is a directory and no directory is there, over a file or anew; the path then has exactly these bytes, all other paths keep theirs, its inode is one version on; one record |
| MemfsObject.Memfs.Unlink | napi-bridge/memfs.js:399-412 | Succeeds exactly if a file is there, and then removes exactly that path |
| MemfsObject.Memfs.Rmdir | napi-bridge/memfs.js:414-429 | Succeeds exactly if an empty directory other than the root is there, and then removes exactly that path; the code's errors otherwise |
| MemfsObject.Memfs.Rename | napi-bridge/memfs.js:431-456 | Succeeds exactly if the source is there and the target's parent is a directory, whatever stands at the target; then every path at or under the source is at or under the target with the same entry, and all other paths are as before; into its own subtree it takes the subtree out of the namespace; the moved inode is one version on |
| MemfsSpec.MovedRelocates | napi-bridge/memfs.js:448-451 | The prefix rewrite moves exactly the paths at and under the source, over what was at the target, and leaves all others |
| MemfsTree.MovedAt | napi-bridge/memfs.js:431-456 | What a rename does path by path |
| MemfsOps.MoveTree | napi-bridge/memfs.js:431-456 | Re-hanging one inode in the table is exactly the prefix rewrite of the namespace, which stays a tree |
| MemfsTree.Detach | napi-bridge/memfs.js:399-456 | Taking a name out of a directory takes exactly its subtree out of the namespace |
| MemfsTree.Attach | napi-bridge/memfs.js:289-456 | Hanging a subtree under a name adds exactly its paths |
| MemfsTree.LookupIsNamespace | napi-bridge/memfs.js:261-272 | Walking the inodes segment by segment finds what the path map says |
| MemfsObject.Memfs.ReadFile | napi-bridge/memfs.js:326-333 | Returns the bytes of the flat map, with the code's errors |
| MemfsObject.Memfs.Readdir | napi-bridge/memfs.js:382-397 | The names listed are exactly the children in the flat map, each once |
| MemfsObject.Memfs.Emit | napi-bridge/memfs.js:189-213 | Appending keeps the journal the consecutively numbered suffix of the history after the watermark, at most 10000 long; a record beyond that cuts it to the newest 7500 |
| MemfsObject.Memfs.GetJournalSince | napi-bridge/memfs.js:219-231 | From a sequence number of at least 1, a gap is reported exactly when a later record was dropped; without one, replaying the entries on the namespace at that number gives the current namespace. From 0 no gap is ever reported, and replaying gives the current namespace exactly if the entries account for every inode in it |
| MemfsSpec.FromNothing | napi-bridge/memfs.js:189-231 | Replaying the retained records on the empty file system gives the current namespace exactly if every path but the root leads to an inode those records made |
| MemfsGap.StaleConsumer | napi-bridge/memfs.js:189-231 | One directory and as many empty transactions as the journal holds: a consumer from 0 is told of no gap and misses the directory |
| MemfsSpec.ReplaySince | napi-bridge/memfs.js:219-231 | Replaying a suffix of the history leads from the namespace at its start to the current one |
| MemfsObject.Memfs.CommitTx | napi-bridge/memfs.js:253-258 | Ends the transaction with one record and changes no path |
| MemfsObject.Memfs.Open | napi-bridge/memfs.js:478-491 | A fresh descriptor on the inode of the path |
| MemfsObject.Memfs.ReadFd | napi-bridge/memfs.js:494-506 | At most the asked bytes from the position, which advances only for a sequential read |
| MemfsObject.Memfs.WriteFd | napi-bridge/memfs.js:508-541 | The inode's bytes become those of the growth-and-overwrite function, its other paths and all other files unchanged; a stale capacity is a RangeError |
| MemfsObject.Memfs.CloseFd | napi-bridge/memfs.js:543-570 | Brings the content hash of a dirty descriptor's inode up to date; bytes unchanged |
| MemfsOps.ContentKeeps | napi-bridge/memfs.js:335-570 | Content changes through a descriptor keep the table, and the hash wherever no open descriptor is dirty |
| MemfsDescriptors.RunBytes | napi-bridge/memfs.js:508-541 | For the only writer, after any run of writes each byte of the buffer is its last write, the old byte or zero |
| MemfsDescriptors.RunGrowth | napi-bridge/memfs.js:512-525 | The buffer's capacity stays at most max(initial, 4096, twice the largest end), and regrowths copy at most the final capacity in total |
| MemfsDescriptors.GrownIs | napi-bridge/memfs.js:515-525 | A regrown buffer is the largest of the bytes needed, twice the old capacity and 4096 |
| MemfsWriters.WriteRun | napi-bridge/memfs.js:508-541 | Any run of `write` calls on the object through one descriptor that is its file's only writer: none fails, each byte of the file is its last write, the old byte or zero, the length is within twice what is used, every path of the file shows these bytes, and no other file changes |
| MemfsSnapshot.Walk | napi-bridge/memfs.js:577-593 | The recursion over the inode tree lists exactly the paths below a directory, files with inode, version, hash and size |
| MemfsSnapshot.TakeSnapshot | napi-bridge/memfs.js:574-597 | The snapshot names exactly the paths of the namespace at its sequence number, each file with the inode it has there |
| FsRemove.RmSync | napi-bridge/fs.js:344-366 | Succeeds exactly if something is there or `force` is set, and nothing is below it or `recursive` is set; then exactly the subtree is gone, all other paths staying; ENOENT and ENOTEMPTY exactly otherwise |
| FsRemove.ClearDir | napi-bridge/fs.js:351-355 | The loop over the children, one recursive removal each |
| FsRemove.PrunedAll | napi-bridge/fs.js:350-355 | Removing the subtree of every child and then the directory is removing the directory's subtree |
| HandleTable.NapiBridge.CreateHandle | napi-bridge/index.js:212-232 | Does to the table what the allocation function says |
| HandleTable.NapiBridge.CloseHandleScope | napi-bridge/index.js:257-271 | The loop over the closed scope, the last scope staying |
| HandleTable.NapiBridge.NapiReferenceUnref | napi-bridge/index.js:2447-2472 | The count goes down by one but never below 0, and the reference is gone exactly at 0 |
| HandleTable.NapiBridge.NapiCreateReference | napi-bridge/index.js:2412-2425 | Stores the given count for the handle and changes nothing else |
| HandleTable.ReferenceLasts | napi-bridge/index.js:2412-2472 | A reference made with n counts lasts for exactly n of them: before the n-th is taken back it has what is left and gives its handle, after it is gone; nothing else changes |
| HandleTable.CreateIs | napi-bridge/index.js:212-232 | A created handle is not live before, comes off the free list or is new, and is tracked by the innermost scope |
| HandleTable.CloseIs | napi-bridge/index.js:257-271 | Closing a scope frees exactly its unreferenced handles |
| HandleTable.StepInv | napi-bridge/index.js:212-271 | Every operation keeps: free list and scopes without duplicates and apart, no referenced handle free |
| HandleTable.RunInv | napi-bridge/index.js:212-271 | The invariant holds in every state of every run |
| HandleTable.StepFrees | napi-bridge/index.js:243-271 | A handle gets free in one way only: its scope, the innermost, closes while no reference holds it |
| HandleTable.RunKeepsValue | napi-bridge/index.js:212-271 | From any point of any run, while a handle stays in a scope or referenced it resolves to the same value |
| HandleTable.RunCreated | napi-bridge/index.js:212-241 | A created handle was not live, and resolves to its value as long as it is |
| HandleTable.RunNeverRecycled | napi-bridge/index.js:243-271 | A handle neither free nor in a scope is never given back in the rest of the run |
| HandleTable.RefUnrefInverse | napi-bridge/index.js:2427-2472 | Taking back a count undoes giving it exactly while the count was at least 1; else the reference goes |
| HandleTable.ReferenceSafeIff | napi-bridge/index.js:2412-2425 | Making a reference keeps the invariant exactly on an allocated handle that is not free |
| HandleTable.FreeSafeIff | napi-bridge/index.js:243-248 | Freeing directly keeps the invariant exactly when it does nothing or the handle is in no scope and not free |
| HandleTable.StaleReferenceShared | napi-bridge/index.js:2412-2425 | A reference on a handle of a closed scope: the next value takes the referenced handle |
| HandleTable.DoubleFreeShared | napi-bridge/index.js:745-750 | A scoped handle freed directly, as callback trampolines do: after the scope closes two values share it |
| Sha256.Sha256 | napi-bridge/browser-builtins.js:42-87 | Below 2^29 bytes the result is SHA-256 of FIPS 180-4; beyond, the hash of the buffer with the truncated length |
| Sha256.PadBuffer | napi-bridge/browser-builtins.js:43-54 | The buffer is message, 0x80, zeros and the low half of the length, a multiple of 64 long |
| Sha256.PaddingIff | napi-bridge/browser-builtins.js:45-54 | The buffer is the padding of section 5.1.1 of FIPS 180-4 exactly below 2^29 bytes |
| Sha256.FewestZerosIs | napi-bridge/browser-builtins.js:46-49 | The number of zero bytes is the least that fills the block up to the length |
| Sha256.Expand | napi-bridge/browser-builtins.js:62-66 | The loop fills the message schedule of section 6.2.2 |
| Sha256.RunRounds | napi-bridge/browser-builtins.js:68-78 | The 64 rounds on the working variables are those of section 6.2.2 |
| Sha256.BigExpressions | napi-bridge/browser-builtins.js:70-73 | The signed shift-and-or expressions are the functions of section 4.1.2 |
| Sha256.SmallExpressions | napi-bridge/browser-builtins.js:63-64 | Likewise for the two schedule functions |
| Sha256.Choices | napi-bridge/browser-builtins.js:71-75 | Likewise for Ch and Maj |
| Sha256.RoundIs | napi-bridge/browser-builtins.js:70-77 | One pass of the loop body, sums reduced once, is one round of the standard |
| Sha256.RootsRow0 | napi-bridge/browser-builtins.js:31-33 | These constants are the fractional parts of the cube roots of the first primes, cut at 32 bits |
| Sha256.RootsRow1 | napi-bridge/browser-builtins.js:34-35 | The next sixteen |
| Sha256.RootsRow2 | napi-bridge/browser-builtins.js:36-37 | The next sixteen |
| Sha256.RootsRow3 | napi-bridge/browser-builtins.js:38-40 | The last sixteen |
| Sha256.InitialRoots | napi-bridge/browser-builtins.js:56-57 | The initial value, from the square roots of the first eight primes |
| BlockList.U8cmp16 | napi-bridge/net-stubs.js:75-81 | The sign is the order of the two addresses as 128-bit numbers |
| BlockList.Ipv6PrefixMatch | napi-bridge/net-stubs.js:84-97 | True exactly when the addresses are equal after division by 2^(128 - prefix) |
| BlockList.Prefix6Is | napi-bridge/net-stubs.js:84-97 | The prefix is that quotient |
| BlockList.MaskIpv6Network | napi-bridge/net-stubs.js:139-158 | The loop computes the masked network |
| BlockList.MaskedSamePrefix | napi-bridge/net-stubs.js:139-158 | Masking keeps the prefix, so it changes no answer, and masked networks are equal exactly when the prefixes are |
| BlockList.Subnet4Is | napi-bridge/net-stubs.js:226-252 | The signed comparison of masked IPv4 values is equality after division by 2^(32 - prefix) |
| BlockList.KeyInjective | napi-bridge/net-stubs.js:133-137 | Canonical keys are equal exactly when the 16 bytes are |
| BlockList.BlockList.AddAddress | napi-bridge/net-stubs.js:172-183 | The address joins the covered set |
| BlockList.BlockList.AddRange | napi-bridge/net-stubs.js:185-207 | The numeric range joins the covered set, from whichever end it is given |
| BlockList.BlockList.AddSubnet | napi-bridge/net-stubs.js:209-229 | The subnet joins the covered set; a prefix out of range is refused and changes nothing |
| BlockList.BlockList.Check | napi-bridge/net-stubs.js:232-255 | True exactly for members of the union of the added addresses, ranges and subnets |
| Bitwise.MaskedEqual | napi-bridge/net-stubs.js:84-97 | Values under a mask of high ones are equal exactly when their high bits are |
| Bitwise.TopEqualIs | napi-bridge/net-stubs.js:84-97 | Agreement of byte strings on their first bits is equality after division by a power of two |
| Bitwise.FixedWidths | napi-bridge/browser-builtins.js:62-62 | The 16-bit and 32-bit readings of bytes are those of big-endian byte strings |
| ChildProcess.ProcessHost.KillChild | napi-bridge/child-process.js:193-201 | `kill` on the child's fields, the table entry and the queue |
| ChildProcess.ProcessHost.ExitOnce | napi-bridge/child-process.js:236-247 | Only the first exit settles the table entry and queues the events |
| ChildProcess.ProcessHost.ExecuteBody | napi-bridge/child-process.js:372-404 | The queued body with its two cancellation checks, and the throw that no 'error' listener hears |
| ChildProcess.ProcessHost.RunMicrotask | napi-bridge/child-process.js:249-262 | The event loop takes one microtask: a body, an exit or a close |
| ChildProcess.StepInv | napi-bridge/child-process.js:193-262 | Every spawn, kill and microtask keeps each child's story: its stage fixes its flags, table entry, queued tasks and past events |
| ChildProcess.RunEvents | napi-bridge/child-process.js:236-262 | In every state of every run: 'exit' and 'close' at most once each, 'close' right after 'exit' with the same pair, which is the settled table entry's; no data after 'exit' |
| ChildProcess.RunSettled | napi-bridge/child-process.js:242-247 | A settled table entry never changes |
| ChildProcess.RunSilenced | napi-bridge/child-process.js:193-201 | From a kill on, a child puts out no stdout, stderr, error or callback |
| ChildProcess.RunKilledEarly | napi-bridge/child-process.js:373-376 | Killed before its queued body runs, a child never puts out anything |
| ChildProcess.TickRunsBody | napi-bridge/child-process.js:372-459 | The body of a child not killed puts out exactly its non-empty output, error and callback, and the table entry is then exactly its code, 1 for a throw, 0 for a fork, or the signal it was killed by; it is settled exactly if the body was killed, returned, or threw with an 'error' listener there |
| ChildProcess.KillSettles | napi-bridge/child-process.js:193-201 | A kill settles an unsettled child with no code and the signal, SIGTERM if none is given, and emits nothing itself |
| ChildProcess.RunPair | napi-bridge/child-process.js:193-262 | The settled pair is an exit code or a signal, never both or neither |
| ChildProcess.RunFieldsAgree | napi-bridge/child-process.js:193-247 | The child's own exitCode and signalCode agree with the settled entry exactly if it was never killed or was killed before it exited |
| ChildProcess.TickDrains | napi-bridge/child-process.js:249-262 | Every microtask brings the queue closer to empty, whatever the bodies do |
| ChildProcess.DrainedAllClosed | napi-bridge/child-process.js:236-262 | Once nothing is queued, a child has exited and closed exactly if its table entry is settled; else it is lost and has put out nothing |
| ChildProcess.StepLost | napi-bridge/child-process.js:372-404 | One step loses a child exactly if it runs a body that throws with no 'error' listener, and only a kill ends a lost child |
| ChildProcess.RunLost | napi-bridge/child-process.js:236-404 | In a run, a child is lost exactly if some body threw with no 'error' listener at that moment and no kill came since |
| ChildProcess.RunDrained | napi-bridge/child-process.js:236-404 | In a run whose queue is empty, a child has exited and closed exactly unless it was lost that way and not killed since |
| ChildProcess.UnheardFork | napi-bridge/child-process.js:578-663 | A module that cannot be loaded, forked with no 'error' listener: nothing is emitted, queued or settled |
| PackageExports.PickIff | napi-bridge/package-resolve.js:57-96 | A non-empty text is picked exactly when some non-empty leaf is reachable without 'types', and through 'node', 'development' and 'production' only when active |
| PackageExports.PickedIsFirst | napi-bridge/package-resolve.js:57-96 | From an object the text picked is that of the property of least precedence among the active ones that lead to a text: node, development, production, import before require exactly if importing, default, then the others in order; nothing is picked exactly if no active property leads to a text |
| PackageExports.PickedIsReached | napi-bridge/package-resolve.js:57-96 | What is picked is a reachable leaf; an empty text only from an empty text itself |
| PackageExports.ReachableIsPicked | napi-bridge/package-resolve.js:57-96 | If any leaf is reachable, one is picked |
| PackageExports.StarRoundTrip | napi-bridge/package-resolve.js:28-50 | For a key with a star, a text is the match exactly when substituting it gives the subject back, so the match is the only one |
| PackageExports.FirstStar | napi-bridge/package-resolve.js:28-50 | The first star of a pattern stands for the captured text, in matching and in substitution, any later star for itself |
| PackageExports.NoStar | napi-bridge/package-resolve.js:28-50 | Without a star a pattern matches only itself, capturing nothing, and substitution leaves it as it is |
| PackageExports.BareKey | napi-bridge/package-resolve.js:112-114 | A subpath that does not start with a dot is tried below './' with its leading slashes taken off |
| PackageExports.ResolvedIsJustified | napi-bridge/package-resolve.js:104-133 | A resolution comes from a reachable leaf of an exact key, or of a pattern key that the subpath instantiates, the star carried over |
| PackageExports.NothingResolvedIff | napi-bridge/package-resolve.js:104-133 | Nothing is resolved exactly when no exact key and no pattern key gives a text |
| PackageExports.WinnerIs | napi-bridge/package-resolve.js:104-133 | An exact key that gives a text wins over every pattern; without one the first pattern property in order that gives a text wins |
| Semver.TextReads | napi-bridge/npm.js:181-185 | The text of a version, with anything after it that is not a digit, is read as its three numbers |
| Semver.ParsesIff | napi-bridge/npm.js:181-185 | A text is read as a version exactly if it begins with three runs of digits with dots between them |
| Semver.RangesOnTexts | napi-bridge/npm.js:187-231 | For all numbers below 2^53 and whatever tags follow, on texts: an exact range is satisfied by that version only, a caret range up to the next change of the leftmost non-zero number, a tilde range up to the next minor version, and >= without end |
| Semver.OtherRanges | napi-bridge/npm.js:229-230 | A range of none of these forms is satisfied by every text that is read as a version |
| Semver.OddTexts | napi-bridge/npm.js:187-191 | An empty or open range accepts every text; any other range accepts only texts that begin with three dotted runs of digits |
| Semver.SatisfiesIsInterval | napi-bridge/npm.js:187-231 | For numbers below 2^53: exact, caret, tilde and >= ranges are intervals of the lexicographic order on triples, all 0.x cases included; other texts accept every version that parses |
| Semver.ResolveVersion | napi-bridge/npm.js:239-283 | For numbers below 2^53: the tag for an open range; otherwise the first listed candidate of greatest triple, and an error exactly when there is no candidate |
| Semver.BestOnTexts | napi-bridge/npm.js:257-270 | With the listed versions written out as texts, no listed candidate has greater numbers than the one chosen, and none of equal numbers comes before it |

## Left out

- TcpNetwork.Delivery: fewer than 2^32 bytes accepted on each side, as sequence numbers are compared only for equality modulo 2^32.
- TcpClosing.FinAcknowledged: fewer than 2^32 - 1 bytes sent, so that the stream and its FIN have distinct numbers; it does not speak of resets, whose acknowledgement number need not be of anything their sender took.
- User callbacks that re-enter: the socket callbacks record what they were told; only `_onEnd` calls `close`.
- Reuse of a connection key while an old TIME_WAIT timer is pending: each connection is one object, and its timers are its own.
- The maximum-segment-size option in the state machine: a SYN there carries only its number; the bytes of options are in Packets.
- ARP, the Ethernet address filter and the choice of the gateway address: table lookups.
- Resets sent by the stack for unmatched segments: modelled for the listening side of a connection, not as a general responder.
- MemfsObject.Memfs.Readdir: order of entries, and access, modification and change times, which would only add bookkeeping.
- MemfsObject.Memfs.ReadFd: negative positions and offsets into the caller's buffer.
- FsRemove.RmSync: a path that resolves to the root with `recursive`, where a child named '' makes the code recurse on the root itself; mutation events of the `fs` module.
- Mutation listeners, `snapshotFull`, `populate`, `realpath` and `access`: loops over the operations modelled here.
- HandleTable: wrap data, finalizers, weak references and the memory views through which results are written.
- BlockList: parsing of address texts; addresses arrive as numbers and bytes.
- ChildProcess: message channels and the 'disconnect' event, per-child working directory and environment, streams destroyed by the user, callbacks that throw.
- PackageExports: the order of integer-like keys, and the "imports" field, which uses the same functions.
- Semver.SatisfiesIsInterval: numbers of 2^53 and more, which `parseInt` rounds and the model does not.
- Semver.ResolveVersion: the same numbers of 2^53 and more.
- Semver: the packument beyond tag and version names.
- Sha256: the conversion of text to bytes before hashing; SHA-1 and HMAC beside it.
- Shell parsing, npm installation, streams, WebSockets, IndexedDB and the remaining modules: not part of this model.
