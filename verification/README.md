# A model of Grumble

Grumble is a Mumble voice server with a layer that gives every board its own voice channel. This project
models its hardest parts in Dafny and proves what they promise. `dafny verify dfyconfig.toml` verifies all of it.

| component | files |
|---|---|
| OCB2 and the datagram crypt state | `Ocb2`, `Ocb2Equations`, `Counter`, `ReplayWindow`, `CryptState`, `CryptExact`, `CryptEndpoint`, `Ocb2Mode` |
| channels, links, removal | `ChannelTree`, `ChannelExact`, `ChannelRefuge`, `ChannelServer`, `Worklist` |
| voice rooms and board isolation | `VoiceRooms`, `BoardIsolation`, `BoardHearing` |
| permissions and groups | `Acl`, `AclRule`, `Groups`, `AclContext` |
| the freezer log | `Freezer`, `FreezerExact`, `FreezerReader`, `FreezerLog` |
| packet data | `Varint`, `VarintNumbers`, `PacketData`, `PacketBuffer`, `VoiceFrames` |
| whispering, sessions, codecs | `VoiceTarget`, `SessionPool`, `CodecElection` |

Each component has a functional part, on which the laws are proved, and methods that work in place as the
server does, proved against it; what the functions come to is then said without them, in equations, by cases
or on the fields themselves. Code outside the repository is a parameter: the block cipher is any
permutation of 16-byte blocks, the entry codec of the log any codec that decodes what it encodes, the
checksum any function, lower-casing any function, and permission checks inside channel operations any predicate.

How the entities are represented:

- Channels are maps from id to field, clients are numbers. Ids are never reused (`BoardIsolation.IdsNeverReused`),
  so an id stands for the object that has it, also after its removal.
- A client is a connection. In `BoardIsolation` whatever the server does under separate locks, or without one, is
  a step: reading a client's channel, taking it off that channel, putting it into another, and so on; any
  interleaving of them is a run, from any consistent state. Session numbers may be handed on at any time, and
  channels list clients by session number. `ChannelServer` and `VoiceTarget` are the handler by itself, without
  disconnects in between.
- A permission is a bit position, a mask a set of positions. A chain of contexts is given as a ghost sequence;
  that it exists says that parents do not form a cycle.
- `CryptEndpoint.Endpoint.Decrypt` returns the plaintext where the original fills a buffer, whose size is a parameter.

What the code does where its comments or its reference say otherwise, and what is proved about it:

- The late branch of nonce reconstruction tests the byte after decrementing it, unlike the reference
  implementation of Mumble, so a borrow is right only if byte 1 was at least 2 (`CryptState.ReconstructionExact`).
  With lateness below 65379 positions no packet is let in twice all the same (`CryptState.AtMostOnce`), and that
  bound is exact (`CryptState.OnceIffWithinBound`).
- A replay hit does not return but decrypts under the old nonce, which cannot succeed under an ideal mode.
- Lost is assigned the gap of the last packet, not accumulated. An empty plaintext panics in the mode; a packet
  that carries none is answered `Panicked`.
- The writer admits 256 entries to a transaction although the walker caps bodies at 255*65535 bytes; 255 entries
  of the greatest size are already above the cap (`Freezer.OversizedCanBeWritten`), and the walker never gets
  beyond such a transaction (`Freezer.LostBehindOversized`).
- The checksumming reader counts the bytes a read delivers but sums the whole buffer, so that a short read makes
  an intact record fail (`FreezerReader.ShortReadRefused`); it is accepted exactly when no read of its body comes
  short (`FreezerReader.AcceptedIffFull`).
- A client that disconnects is taken off the channel it was in when its channel was read, even if it was moved
  since; another channel then lists it for good (`BoardIsolation.StaleLeaveUnsettles`). Isolation does not suffer.
- A board whose room outlived its channel keeps the room where it is: a newcomer is sent to a new channel and is
  not heard there (`BoardHearing.HeardIffRoomWasLive`).
- A whisper target that asks for linked channels leaves out its own channel if that has no links
  (`VoiceTarget.LinklessTarget`).
- A client that is in no channel can be named in a whisper target unchecked; the receive check still holds.
- The varint writer has no form for magnitudes in [0x200000, 0x10000000) and leaves a stray byte after -1 to -4
  (`Varint.ComesBackIffGood`), although it announces the most efficient encoding of any value.
- Copying bytes out of a packet does not move the offset (`PacketBuffer.Buffer.CopyOut`).
- A session pool that runs out notes id zero as used, because the note is deferred (`SessionPool.Get`).

## Model

| member | source | states |
|---|---|---|
| `Ocb2.Times2IsDoubling` | pkg/cryptstate/ocb2/ocb2.go:51-88 | `times2` is multiplication by x in GF(2^128): read big-endian, coefficient e of the result is coefficient e-1 of the input, xored with the top coefficient where the reduction polynomial has a term |
| `Ocb2.Times2Linear` | pkg/cryptstate/ocb2/ocb2.go:82-88 | doubling distributes over xor |
| `Ocb2.Times2Injective` | pkg/cryptstate/ocb2/ocb2.go:82-88 | doubling never maps two blocks to one |
| `Ocb2.Times2InPlace` | pkg/cryptstate/ocb2/ocb2.go:82-88 | the loop, although it overwrites bytes it has just read, leaves the doubled old block |
| `Ocb2.Times3InPlace` | pkg/cryptstate/ocb2/ocb2.go:94-100 | the loop leaves the old block xored with its double |
| `Ocb2.XorInto` | pkg/cryptstate/ocb2/ocb2.go:45-49 | the byte loop leaves the xor of both blocks, also when one of them is the destination's old value |
| `Ocb2.SealBlocks` | pkg/cryptstate/ocb2/ocb2.go:135-144 | the encryption loop stops before the last block with offset, checksum and output such that what remains to be done completes the ciphertext and the sum of the whole message |
| `Ocb2.OpenBlocks` | pkg/cryptstate/ocb2/ocb2.go:205-214 | the same for decryption, the checksum being taken over the plaintext just written |
| `Ocb2.SealLast` | pkg/cryptstate/ocb2/ocb2.go:146-164 | the last block, of 0 to 16 bytes: masked with the pad, and summed when completed by the pad's rest; `Ocb2Equations.LastBlockEquation` and `Ocb2Equations.TagEquation` say what that amounts to |
| `Ocb2.OpenLast` | pkg/cryptstate/ocb2/ocb2.go:216-233 | recovers the last block and sums it as encryption did, although it masks a zero-filled block |
| `Ocb2.FinalTag` | pkg/cryptstate/ocb2/ocb2.go:166-169 | the tag is the encryption of the tripled offset xored with the checksum |
| `Ocb2.Encrypt` | pkg/cryptstate/ocb2/ocb2.go:115-170 | in place, for every length including zero: writes the ciphertext and the tag, truncated to the tag buffer, of the mode's defining recursion, which satisfies the equations of `Ocb2Equations` |
| `Ocb2.Decrypt` | pkg/cryptstate/ocb2/ocb2.go:185-246 | in place: writes the plaintext of the defining recursion and answers whether the tag given is a prefix of its tag |
| `Ocb2.BlockEquation` | pkg/cryptstate/ocb2/ocb2.go:135-144 | without reference to the recursion: full block k is D_k xor E(D_k xor M_k), where D_k is the nonce offset doubled k+1 times |
| `Ocb2Equations.LengthIsInBits` | pkg/cryptstate/ocb2/ocb2.go:148-150 | the block xored into the offset for the pad is, as a big-endian number, eight times the length of the last block |
| `Ocb2Equations.NumberInjective` | pkg/cryptstate/ocb2/ocb2.go:148-150 | a block is determined by its number, so the equations below may give the length block by its number alone |
| `Ocb2Equations.DoubledSteps` | pkg/cryptstate/ocb2/ocb2.go:135-147 | offset n + 1 is the double of offset n, and the first is the one given |
| `Ocb2Equations.LastBlockEquation` | pkg/cryptstate/ocb2/ocb2.go:146-164 | for every message: byte i of the last block is src[i] xor byte i of E(L xor 2^(m+1) E(nonce)), L being the block whose number is the length in bits |
| `Ocb2Equations.TagEquation` | pkg/cryptstate/ocb2/ocb2.go:135-169 | for every message: the tag is E of the tripled last offset xor the sum of all blocks before the last and of the last, completed by the end of E(L xor last offset); written in xor, doubling and E alone |
| `Ocb2.OpenedSealed` | pkg/cryptstate/ocb2/ocb2.go:115-246 | for every block permutation, offset and message of any length, decrypting the ciphertext gives the message |
| `Ocb2.SealedOpened` | pkg/cryptstate/ocb2/ocb2.go:115-246 | and encrypting a decrypted ciphertext gives the ciphertext, so every ciphertext is somebody's |
| `Ocb2.RoundTrip` | pkg/cryptstate/ocb2/ocb2.go:115-246 | the law of the mode: for every permutation, nonce, plaintext (empty, partial or full last block) and tag length up to 16, decryption restores the plaintext and accepts the tag |
| `Ocb2.AcceptsOnlySealed` | pkg/cryptstate/ocb2/ocb2.go:185-246 | whatever passes is exactly the encryption of the plaintext returned, with that tag |
| `Ocb2Mode.OpensSealed` | pkg/cryptstate/mode_ocb2.go:49-69 | tag of three bytes in front of the ciphertext: opening what was sealed gives the plaintext |
| `Ocb2Mode.SealLayout` | pkg/cryptstate/mode_ocb2.go:20-57 | the body is the first three bytes of the tag and then the ciphertext; nonces have 16 bytes |
| `Ocb2Mode.OpensOnlySealed` | pkg/cryptstate/mode_ocb2.go:61-69 | a body opens as a plaintext if and only if it is that plaintext sealed under the nonce |
| `Ocb2Mode.Ocb2IsLawful` | pkg/cryptstate/mode_ocb2.go:20-69 | OCB2 over any block permutation meets what the crypt state asks of a mode |
| `Ocb2Mode.PeersOverOcb2` | pkg/cryptstate/mode_ocb2.go:49-69 | two peers over OCB2 stay in sync: every non-empty plaintext delivered in order comes back, and the nonces agree |
| `Counter.ValueAt` | pkg/cryptstate/cryptstate.go:136-195 | the n bytes of a counter have the value of the counter modulo 256^n |
| `Counter.SameCounter` | pkg/cryptstate/cryptstate.go:136-195 | a byte string has the value of a counter modulo 256^n exactly when it is that counter's bytes |
| `Counter.AtOwnValue` | pkg/cryptstate/cryptstate.go:136-195 | every nonce is the counter of its own value, so statements about counters are about all nonces |
| `Counter.IncrementValue` | pkg/cryptstate/cryptstate.go:231-242 | the carry loop adds one modulo 256^n |
| `Counter.AtIncrement` | pkg/cryptstate/cryptstate.go:142-147 | the carry loop takes the bytes of v to the bytes of v + 1 |
| `Counter.CodeBorrowExact` | pkg/cryptstate/cryptstate.go:172-177 | the borrow loop, which tests the byte it has just written, subtracts one if and only if its first byte was at least 2 |
| `Counter.BorrowedAs` | pkg/cryptstate/cryptstate.go:172-177 | what the loop makes of any counter: one less from a low byte of 2 on, 255 more at zero, and at one the low byte becomes zero and the loop goes on |
| `CryptState.GuessedAhead` | pkg/cryptstate/cryptstate.go:136-192 | for d from 1 to 128 the nonce rebuilt is the counter v + d, and d - 1 packets count as lost |
| `CryptState.GuessedLate` | pkg/cryptstate/cryptstate.go:161-178 | up to 29 behind, the two low bytes rebuilt are always those of the sender, even where the borrow is wrong |
| `CryptState.LateExact` | pkg/cryptstate/cryptstate.go:161-178 | up to 29 behind, the nonce rebuilt is v - e if and only if no borrow is needed or byte 1 is at least 2 |
| `CryptState.ReconstructionExact` | pkg/cryptstate/cryptstate.go:136-195 | all branches at once, for every counter, width and byte on the wire, with the condition under which the late branch is exact and the bytes that are refused |
| `CryptExact.DistanceIs` | pkg/cryptstate/cryptstate.go:136-195 | the distance of a byte on the wire is the difference modulo 256 |
| `CryptExact.SendExact` | pkg/cryptstate/cryptstate.go:231-242 | a sender at counter v emits the low byte of v + 1 and what the mode encrypts under v + 1, and is then at v + 1 |
| `CryptExact.ReceiveAhead` | pkg/cryptstate/cryptstate.go:118-229 | a packet d ahead, d from 1 to 128, is tried under v + d, or under v if it is not the next and is in the history; if it decrypts, the caller gets exactly that plaintext, Good counts it, Lost is d - 1, Late stays, history and nonce are set; else nothing changes |
| `CryptExact.ReceiveLate` | pkg/cryptstate/cryptstate.go:161-229 | a packet up to 29 behind likewise: exactly its plaintext, Late and Good count it, Lost is 1, and the nonce stays where it was |
| `CryptExact.ReceiveRefused` | pkg/cryptstate/cryptstate.go:118-195 | too short, too big for the buffer, and out of reach, each if and only if its condition holds, with the state as it was |
| `CryptExact.ReceiveEmpty` | pkg/cryptstate/cryptstate.go:118-202 | a packet with nothing after its tag and a byte within reach is the panic of the mode |
| `CryptExact.AcceptedIsOwn` | pkg/cryptstate/cryptstate.go:197-202 | under an ideal mode, what an accepted packet yields is its decryption under its own nonce, whichever branch took it |
| `CryptExact.AcceptedYieldsOwn` | pkg/cryptstate/cryptstate.go:118-229 | over every sequence of lost, reordered and repeated packets, every arrival accepted yields the plaintext of that arrival |
| `CryptExact.AcceptedYieldsSent` | pkg/cryptstate/cryptstate.go:118-229 | and that is what the sender encrypted, packet by packet |
| `CryptState.InOrderStep` | pkg/cryptstate/cryptstate.go:118-242 | one plaintext sent and received in order: it comes back, both nonces are the old one plus one, Good counts it, Lost is zero |
| `CryptState.PeersStayInSync` | pkg/cryptstate/cryptstate.go:118-242 | for every sequence of non-empty plaintexts delivered in order: each comes back, the nonces agree after them, Good counts them modulo 2^32 and Late stays |
| `CryptState.AcceptedUnderOwnNonce` | pkg/cryptstate/cryptstate.go:197-218 | under an ideal mode a packet is accepted only with its own nonce, in order or absent from the history; the history hit that falls through to the old nonce never accepts it, and every refusal leaves the state alone |
| `CryptState.CountingSound` | pkg/cryptstate/cryptstate.go:136-195 | what the replay argument needs of nonce reconstruction, for a sender that counts: forward hits are at most 128 ahead, backward hits at most 29 behind or at least 65507 away, and history slots separate nearby packets |
| `ReplayWindow.AcceptsOnce` | pkg/cryptstate/cryptstate.go:197-212 | a packet that was accepted before is not accepted again, given that every accepted packet still within reach is remembered in the 256-entry history |
| `ReplayWindow.RunStaysOnTrack` | pkg/cryptstate/cryptstate.go:118-212 | over every run with bounded lateness, every accepted packet that could be hit again is remembered, although in-order packets skip the check and entries are overwritten |
| `ReplayWindow.NoneAcceptedTwice` | pkg/cryptstate/cryptstate.go:118-212 | hence no packet number is accepted twice |
| `CryptState.AtMostOnce` | pkg/cryptstate/cryptstate.go:118-212 | at most once for the code itself: over every sequence of lost, reordered and repeated packets of one sender with lateness below 65379, from any initial history, no packet is accepted twice |
| `CryptState.OnceIffWithinBound` | pkg/cryptstate/cryptstate.go:118-212 | the bound is exact: for a sender that starts where the two low bytes of the counter are zero, and all receivers and arrivals within a bound on lateness, at most once holds if and only if the bound is at most 65379 |
| `CryptState.TwiceAfterJump` | pkg/cryptstate/cryptstate.go:161-202 | why: a packet from 65507 to 65535 comes first and is taken for a late one, the receiver jumps ahead to packet j, and when the packet's turn comes it is accepted again; lateness is k - j |
| `CryptState.TwiceWithoutBound` | pkg/cryptstate/cryptstate.go:161-178 | a new receiver, with a zero history, is no exception: any packet from 65507 to 65535 first and then 1, 2, 3, ... in order, and that packet is accepted twice, because the borrow stops too soon |
| `CryptState.WrongGuess` | pkg/cryptstate/cryptstate.go:167-178 | from a counter with two zero low bytes, a byte of 227 or more makes the receiver try the packet 65536 positions too far ahead |
| `CryptEndpoint.CarryUp` | pkg/cryptstate/cryptstate.go:142-147 | the carry loop in place equals the increment of the bytes from its start, the others untouched |
| `CryptEndpoint.BorrowDown` | pkg/cryptstate/cryptstate.go:172-177 | the borrow loop in place, as written |
| `CryptEndpoint.Endpoint.Encrypt` | pkg/cryptstate/cryptstate.go:231-242 | steps the nonce in place and emits its low byte, tag and ciphertext, as the functional sender does |
| `CryptEndpoint.Endpoint.Guess` | pkg/cryptstate/cryptstate.go:136-195 | the branches on the signed byte difference, editing the nonce in place, compute the reconstruction by distance |
| `CryptEndpoint.Endpoint.Decrypt` | pkg/cryptstate/cryptstate.go:118-229 | refines the functional receiver, whose answers `CryptExact` gives case by case; any error leaves nonces, history and counters as they were |
| `ChannelTree.InitialInv` | cmd/grumble/server.go:155-178 | a new server's channels are consistent |
| `ChannelExact.InitialExact` | cmd/grumble/server.go:155-178 | it has the root alone, with nothing in it |
| `ChannelTree.CreateForms` | cmd/grumble/server.go:409-415 | a new channel, below any channel that is not temporary, keeps the shape of the channels: finite acyclic tree rooted at 0, parents, children and ACL parents agreeing, links symmetric and closed, ids below the next one, temporary channels childless |
| `ChannelTree.CreateKeeps` | cmd/grumble/server.go:409-415 | and, with it, that every client is in the one channel that lists it |
| `ChannelExact.CreateExact` | cmd/grumble/message.go:244-266 | the new channel has the next id, is below p and no other, has neither children nor links nor members, is temporary exactly if asked, and everything of every other channel is as before |
| `ChannelTree.LinkKeeps` | cmd/grumble/server.go:428-437 | linking and unlinking keep the shape, also amid removals |
| `ChannelTree.UnlinkUndoesLink` | cmd/grumble/server.go:428-437 | unlinking restores the state before linking, self-links included |
| `ChannelTree.EnterKeeps` | cmd/grumble/server.go:1145-1157 | entering a channel keeps the invariant; the client is then in that one channel |
| `ChannelTree.LeaveKeeps` | cmd/grumble/channel.go:70-75 | leaving keeps it |
| `ChannelTree.MoveKeeps` | cmd/grumble/message.go:421-425 | moving a channel below one that is neither in its subtree nor temporary keeps the shape; no cycle arises |
| `ChannelExact.MoveExact` | cmd/grumble/message.go:421-425 | the parent is the new one, it alone gains the child, the old one alone loses it, and nothing else changes |
| `ChannelExact.LinkExact` | cmd/grumble/server.go:428-437 | linking adds the two links between the channels and unlinking takes them, and nothing else changes |
| `ChannelExact.JoinedExact` | cmd/grumble/message.go:450-458 | likewise for the lists of a message |
| `ChannelExact.EnterExact` | cmd/grumble/server.go:1145-1157 | the client is listed by the channel entered and by no other, and nothing else changes |
| `ChannelExact.LeaveExact` | cmd/grumble/channel.go:70-75 | the client is listed nowhere, and nothing else changes |
| `ChannelExact.UnlinkedExact` | cmd/grumble/server.go:1259-1262 | the first step of a removal: the channels it is linked with lose it, nothing else changes, its own list included |
| `ChannelExact.DetachedExact` | cmd/grumble/server.go:1285-1294 | the last step: off the server's list and off its parent's, nothing else changes |
| `ChannelTree.Acyclic` | cmd/grumble/channel.go:48-59 | no channel is properly above itself once the root is above it |
| `ChannelTree.ParentsAreLasting` | cmd/grumble/message.go:365-369 | channels with children are not temporary |
| `ChannelTree.UnlinkedForms` | cmd/grumble/server.go:1253-1262 | the first step of a removal leaves no channel still active linked with the one removed |
| `ChannelTree.DetachedForms` | cmd/grumble/server.go:1285-1294 | the last step keeps the shape of the rest, whoever may still be listed |
| `ChannelTree.DetachedSound` | cmd/grumble/server.go:1285-1294 | and the places of clients, if nobody is |
| `ChannelTree.RemovalCompose` | cmd/grumble/server.go:1264-1267 | removing one subtree and then another amounts to removing both |
| `ChannelTree.RemovedAlready` | cmd/grumble/server.go:1253-1295 | a channel that is gone has no children, clients or two-sided links, so removing it again does nothing |
| `ChannelServer.Server.CreateChannel` | cmd/grumble/message.go:224-266 | refused when not permitted or below a temporary channel, else the channel gets the next id, which no channel had before, is below the parent asked for and is temporary exactly if asked |
| `ChannelServer.Server.Reparent` | cmd/grumble/message.go:348-390 | moves exactly when permitted, something changes, the new parent is not at or below the channel, found by climbing, and is not temporary; the invariant is kept |
| `ChannelServer.Server.EditLinks` | cmd/grumble/message.go:392-458 | the link edits of a message are refused as a whole when any permission is missing; else additions come first, then removals |
| `ChannelServer.Server.IsAbove` | cmd/grumble/message.go:355-363 | the climb terminates and decides ancestry |
| `ChannelServer.Server.AddLinks` | cmd/grumble/message.go:450-453 | links the channel with exactly the live channels listed, on both sides, and changes no other link |
| `ChannelServer.Server.RemoveLinks` | cmd/grumble/message.go:455-458 | unlinks exactly those, on both sides, and changes no other link |
| `ChannelServer.Server.Refuge` | cmd/grumble/server.go:1270-1274 | the client goes to the nearest channel properly above that lets it in, else to the root |
| `ChannelServer.Server.Evacuate` | cmd/grumble/server.go:1269-1283 | empties a channel; each client goes to the nearest channel above that lets it in as the state then is, past only such as turn it away, else to the root |
| `ChannelServer.Server.UnlinkAll` | cmd/grumble/server.go:1259-1262 | takes the channel off the lists of its links, whatever the order, and changes nothing else |
| `ChannelServer.Server.RemoveChildren` | cmd/grumble/server.go:1264-1267 | removes exactly what lies below a channel, although the recursion edits the map it iterates over |
| `ChannelServer.Server.RemoveChannel` | cmd/grumble/server.go:1253-1295 | the recursion terminates and removes exactly the subtree of a channel, whatever is being removed around it |
| `ChannelServer.Server.Remove` | cmd/grumble/server.go:1253-1295 | from a consistent state: exactly the subtree goes, survivors lose exactly the links and children in it, each client of the subtree, however deep, is in the nearest proper ancestor of the removed channel that let it in or in the root, all others stay, and a second removal is a no-op |
| `ChannelRefuge.OneHaven` | cmd/grumble/server.go:1269-1283 | if the answers of the permission check do not change meanwhile, that place is one and the same, whatever the order of the removals |
| `ChannelRefuge.RefugedOn` | cmd/grumble/server.go:1264-1283 | a client sent from channel to channel as they are removed passes none outside them that did not turn it away |
| `ChannelRefuge.ClearanceCompose` | cmd/grumble/server.go:1264-1267 | so for all clients, when one subtree is removed after another |
| `ChannelRefuge.ClearanceWhole` | cmd/grumble/server.go:1253-1295 | and when links, children, clients and the channel itself go one after the other |
| `ChannelServer.Server.AllLinks` | cmd/grumble/channel.go:106-120 | exactly the channels reachable by one or more link steps, cycles included |
| `ChannelServer.Server.AllSubChannels` | cmd/grumble/channel.go:123-140 | exactly the proper descendants |
| `Worklist.Closure` | cmd/grumble/channel.go:106-140 | the worklist terminates on any finite graph and returns exactly what one or more edges lead to |
| `ChannelServer.BelowIsReachable` | cmd/grumble/channel.go:123-140 | what children lead to is what parents lead up from |
| `VoiceRooms.VoiceRoomManager.Find` | pkg/teamlancer/voice/manager.go:24-33 | rooms being filed under their boards, finds a room exactly when some room's board, trimmed, is the one asked for, and then it is that one room, however the board was spelt |
| `VoiceRooms.VoiceRoomManager.FindByChannelID` | pkg/teamlancer/voice/manager.go:35-45 | some room on the channel, whichever the map yields first, and none only if there is none |
| `VoiceRooms.VoiceRoomManager.JoinRoom` | pkg/teamlancer/voice/manager.go:47-79 | denied if and only if the identity may not join, then each missing field in its order; else the user is a participant of the board's room, created on the channel only if there was none |
| `VoiceRooms.VoiceRoomManager.LeaveRoom` | pkg/teamlancer/voice/manager.go:81-102 | the user is no participant any more, the room goes with its last one, and the snapshot returned is the room without the user |
| `VoiceRooms.JoinFiled` | pkg/teamlancer/voice/manager.go:47-79 | joining keeps rooms filed under their trimmed boards and never empty; it adds exactly the user to exactly the board's room, every room there was keeps its channel, and only a new room is on the channel given |
| `VoiceRooms.LeaveFiled` | pkg/teamlancer/voice/manager.go:81-102 | leaving keeps that; it takes exactly the user off exactly the board's room, a room goes if and only if nobody is left, and an empty board or user changes nothing |
| `VoiceRooms.JoinThenLeave` | pkg/teamlancer/voice/manager.go:47-102 | leaving undoes the joining of a user who was not in the board's room, whether there was one or not |
| `VoiceRooms.TrimTwice` | pkg/teamlancer/voice/manager.go:51-55 | trimming is idempotent, so a stored board equals its own key |
| `VoiceRooms.SpacesAre` | pkg/teamlancer/voice/manager.go:51-55 | white space is what Unicode says it is, code point by code point |
| `VoiceRooms.TrimExact` | pkg/teamlancer/voice/manager.go:51-55 | what is trimmed off is white space, and what remains neither begins nor ends with any |
| `BoardIsolation.StartInv` | cmd/grumble/server.go:155-178 | a server that starts with any consistent channels and nobody connected is in a consistent state |
| `BoardIsolation.ResolveKeeps` | cmd/grumble/teamlancer_voice.go:34-63 | joining the channel of the board's room if it still exists, or making a new one, keeps the invariant, also when a room outlived its channel |
| `BoardHearing.ResolveJoins` | cmd/grumble/teamlancer_voice.go:42-48 | if some room's board, trimmed, is the client's and its channel exists, the client is sent to that channel and nothing else changes |
| `BoardHearing.ResolveMakes` | cmd/grumble/teamlancer_voice.go:50-52 | otherwise exactly one channel is made, temporary, below the root and of a new id, the client is sent there, and nothing else changes |
| `BoardIsolation.JoinKeeps` | cmd/grumble/teamlancer_voice.go:65-73 | taking a place in the room, in a separately locked step after resolving, keeps it |
| `BoardIsolation.AllowMoveKeeps` | cmd/grumble/message.go:575-590 | a move that passed the board check directs a scoped client to a channel of its own board only |
| `BoardIsolation.LeaveNotedKeeps` | cmd/grumble/server.go:373-377 | taking a client off a channel read earlier, where it may no longer be, by a session number that another connection may have by now, keeps it |
| `BoardIsolation.EnterPendingKeeps` | cmd/grumble/server.go:1150-1157 | putting a client into a channel, apart from taking it off the old one and whatever happened in between, keeps it |
| `BoardIsolation.LeaveRoomKeeps` | cmd/grumble/server.go:379-391 | leaving the room, last, keeps it |
| `BoardIsolation.AddTargetKeeps` | cmd/grumble/message.go:1437-1459 | a whisper target that passed the check names a channel of the client's own board |
| `BoardIsolation.CreateChannelKeeps` | cmd/grumble/message.go:224-317 | creating a channel, its creator on the way into it when temporary, keeps it |
| `BoardIsolation.SendAwayKeeps` | cmd/grumble/server.go:1269-1283 | clients listed by a removed channel are never sent to a board channel, since those are leaves |
| `BoardIsolation.NextKeepsInv` | cmd/grumble/server.go:351-486 | every step of the protocol from every consistent state leads to a consistent one |
| `BoardIsolation.GuardsAreExact` | cmd/grumble/server.go:409-425 | in a consistent state the guards of the steps ask only that channels exist |
| `BoardIsolation.BoardsStayApart` | cmd/grumble/teamlancer_voice.go:34-132 | board isolation: over every run from every consistent state, whatever the interleaving, if the sender's channel is read in one state and the rooms are consulted in the same or a later one, voice of a board-scoped sender passes only to clients of its board |
| `BoardIsolation.HeardByOwnBoard` | cmd/grumble/teamlancer_voice.go:109-121 | a scoped sender is heard exactly by the clients of its own board, and only while it is in the channel its board's room points to |
| `BoardHearing.HeardWithoutBoard` | cmd/grumble/teamlancer_voice.go:109-121 | a sender without a board is heard exactly by the clients without one, and by the board whose room is on its channel |
| `BoardHearing.HeardIffRoomWasLive` | cmd/grumble/server.go:620-633 | from every consistent state, a client that resolves, joins and enters is then heard by its board if and only if the board had no room or one whose channel still existed; a room that outlived its channel keeps it, and mutes the newcomer |
| `BoardHearing.AdmittedIsTuned` | cmd/grumble/server.go:620-725 | over every run: a client admitted while the channel of its board's room, if it has one, exists, among any other steps that neither send it elsewhere nor make another room, is in the channel of its board's room, and stays so as long as it is not moved and the room is kept |
| `BoardHearing.BoardMatesHearEachOther` | cmd/grumble/server.go:620-725 | over every run: two clients of one board admitted in this way, in whatever interleaving, hear each other |
| `BoardHearing.RaceMutes` | cmd/grumble/server.go:585-586 | why authentication ends in one handler: of two clients of a board without a room that both resolve before either joins, from any consistent state, the second to join is not heard by the first |
| `BoardHearing.OnlyTheAllowedJoin` | pkg/teamlancer/voice/manager.go:48-50 | over every run nobody participates in a room who is not a client of its board that may join voice |
| `BoardHearing.RoomsStay` | pkg/teamlancer/voice/manager.go:47-102 | no step moves a room to another channel, and only joining makes one, on the channel the client was sent to |
| `BoardHearing.ClientSteps` | cmd/grumble/server.go:351-391 | what the steps of clients change, member by member and by session number, and that nothing else does |
| `BoardHearing.ChannelSteps` | cmd/grumble/server.go:409-437 | likewise for the steps of channels |
| `BoardIsolation.DeliveryStaysOnBoard` | cmd/grumble/server.go:454-475 | whoever the candidates are, listed by a channel or in a whisper's audience fresh or stale, all recipients are of the sender's board |
| `BoardIsolation.SpokenToExact` | cmd/grumble/server.go:454-473 | what a scoped client says goes exactly to the others its channel lists that are of its board and may receive voice, and to nobody unless the board's room is there |
| `BoardIsolation.TargetsStayOnBoard` | cmd/grumble/message.go:1437-1459 | over every run a scoped client's whisper targets name channels of its own board only |
| `BoardIsolation.ChannelsStayFormed` | cmd/grumble/message.go:348-458 | over every run the channels stay a consistent tree with consistent links, also in the middle of removals, and temporary channels stay leaves |
| `BoardIsolation.PlacementExact` | cmd/grumble/server.go:1145-1157 | from a state where every client is in the one channel that lists it, a step leads to such a state if and only if it takes the client off the channel it is in, or puts it where it is nowhere else, with nobody there of the same session number, or removes an empty channel |
| `BoardIsolation.ClientsStayPlaced` | cmd/grumble/server.go:1145-1157 | over every run whose steps are all of that kind, every client stays in the one channel that lists it |
| `BoardIsolation.StaleLeaveUnsettles` | cmd/grumble/server.go:373-377 | the code has other runs: from any state, a disconnect that reads the client's channel, a move, and then the removal from the channel read leave the client listed in a channel it does not know of |
| `BoardIsolation.OutAndInIsEnter` | cmd/grumble/server.go:1150-1157 | where clients are placed and session numbers differ, the two steps of entering a channel are the one step of the sequential model |
| `BoardIsolation.IdsNeverReused` | cmd/grumble/server.go:409-415 | over every run a channel that appears later has an id no channel had before, and channels keep their board |
| `BoardIsolation.OneRoomPerChannel` | pkg/teamlancer/voice/manager.go:35-45 | in a consistent state no two rooms share a channel, so the search by channel is unambiguous |
| `BoardIsolation.ChecksAreExact` | cmd/grumble/teamlancer_voice.go:98-132 | whatever room the search comes upon, the receive, move and whisper target checks as written answer what the protocol says |
| `Acl.AllowedIsRule` | pkg/acl/acl.go:103-166 | the fold is a rule over the entries in force: nothing is allowed once some level leaves traverse and write off; otherwise the last entry in force to mention a permission decides, deny before allow, else the default, and write stands in for all but speak and whisper |
| `AclRule.AllowedByEntries` | pkg/acl/acl.go:103-166 | the rule over entry j of level i itself: it counts if it matches, no later level refuses to inherit, and applyHere holds at the last level, applySubs at any other; the last to mention a permission decides, else the five defaults; every level must leave traverse or write on |
| `AclRule.DefaultsOnly` | pkg/acl/acl.go:104-115 | a chain without entries allows exactly traverse, enter, speak, whisper and text messages |
| `Acl.EvaluateIsRule` | pkg/acl/acl.go:112-157 | the same for one bit, from any point of the evaluation |
| `Acl.OnlyTraverseAndWritePass` | pkg/acl/acl.go:112-118 | above a non-inheriting context, entries that mention neither traverse nor write, and the inherit flags, never change an answer |
| `AclContext.BuildChain` | pkg/acl/context.go:41-48 | the walk over parents terminates and yields the chain, outermost first |
| `AclContext.ChainDistinct` | pkg/acl/context.go:41-48 | no context occurs twice in a chain, so comparing with the original context finds the last level and no other |
| `AclContext.ApplyEntries` | pkg/acl/acl.go:120-148 | the loop over the entries of one context computes the level's effect on permissions, traverse and write |
| `AclContext.GrantedIn` | pkg/acl/acl.go:103-157 | the loop over the chain, with its early exit, computes the fold |
| `AclContext.HasPermission` | pkg/acl/acl.go:89-167 | the whole, stated on the entries of the chain: the super user has all but speak and whisper; anybody else has a permission if and only if every context leaves traverse or write on and the last entry that counts, by its user or group, its context's place, its flags and the inheritance further in, does not deny it |
| `Groups.ParseExact` | pkg/acl/group.go:146-177 | marks in any order and number: each flag says whether its mark occurs, so two inversions do not cancel |
| `AclContext.ReadMarks` | pkg/acl/group.go:146-177 | the loop over the marks computes that |
| `AclContext.GroupMemberCheck` | pkg/acl/group.go:130-334 | every branch but the path-based group: empty names, inversion, entry context, tokens, hash, the magic names and plain groups |
| `AclContext.MagicNames` | pkg/acl/group.go:195-216 | each magic name: none and strong nobody, all everybody, auth the registered, in and out those in and not in the current context; the empty name nobody |
| `AclContext.Inverted` | pkg/acl/group.go:136-157 | a leading '!' negates the answer, unless there is another one, and unless nothing but marks follows |
| `AclContext.TokenGroup` | pkg/acl/group.go:179-187 | '#' asks for an access token, in any case of letters |
| `AclContext.HashGroup` | pkg/acl/group.go:188-194 | '$' asks for the certificate hash |
| `AclContext.EntryContextGroup` | pkg/acl/group.go:158-163 | '~' has the rest read in the context of the entry |
| `AclContext.PlainGroup` | pkg/acl/group.go:301-332 | any other name is a group: some definition along the chain reached by inheritance takes the user, and none from there inwards removes them |
| `AclContext.CollectGroups` | pkg/acl/group.go:82-105 | the outward walk collects exactly the groups that count, outermost first, with both ways of stopping; the same walk stands at lines 302-322 |
| `AclContext.PlainMember` | pkg/acl/group.go:301-332 | the loop over the groups decides membership |
| `AclContext.MembersInContext` | pkg/acl/group.go:81-117 | the set built by adding and deleting is the fold over the groups |
| `Groups.MembersAgree` | pkg/acl/group.go:107-117 | without temporary members the list and the check of one user agree on any sequence of groups |
| `AclContext.TwoWaysAgree` | pkg/acl/group.go:81-117 | hence for every chain and plain group name, a user id is listed exactly when the check answers true |
| `Groups.TemporaryAdds` | pkg/acl/group.go:323-332 | with temporary members the check accepts exactly the listed ones and those some group takes for the time being and no later group removes |
| `Groups.MemberRule` | pkg/acl/group.go:301-332 | membership declaratively: some definition reached by inheritance takes the user, and none reached from there inwards removes them |
| `Freezer.WholeRecord` | pkg/freezer/walker.go:98-244 | a committed transaction is read back entry for entry and leaves what follows, if its body is at most 255*65535 bytes, and is refused as too big otherwise |
| `FreezerExact.BoundIsTight` | pkg/freezer/walker.go:114-119 | a transaction of 16711425 bytes is read back, and one of a byte more is refused |
| `FreezerExact.RecordLayout` | pkg/freezer/writer.go:166-195 | a record is its length after that field, the number of entries, the checksum and the body, little-endian |
| `FreezerExact.EntryLayout` | pkg/freezer/writer.go:138-162 | an entry is its kind, its length and its payload |
| `FreezerExact.AcceptedIsIntact` | pkg/freezer/walker.go:98-244 | whatever the walker accepts, from any input, is a record with the length and the checksum of its body, followed by what it leaves |
| `FreezerExact.HeaderChecks` | pkg/freezer/walker.go:107-133 | the errors before the entries, in their order, and what they leave |
| `FreezerExact.UnknownKind` | pkg/freezer/walker.go:161-228 | an entry of a kind from 7 on is skipped |
| `FreezerExact.KnownKind` | pkg/freezer/walker.go:161-225 | an entry of a known kind is added if it decodes, dropped if its payload ends early, and fatal if it is garbled |
| `FreezerExact.ChecksInOrder` | pkg/freezer/walker.go:231-243 | the checks after the entries, in their order: an early end of the last, bytes left over, the checksum |
| `Freezer.TornRecord` | pkg/freezer/walker.go:98-244 | any proper prefix of a record yields end of file within the length field, and an unexpected end after it, never an entry |
| `Freezer.NextShrinks` | pkg/freezer/walker.go:98-244 | a transaction read uses up bytes, so walking terminates on any input |
| `Freezer.SurvivorsFit` | pkg/freezer/writer.go:166-195 | the transactions that survive a cut are as many as can be: they fit, none is too big, and the next does not fit or is too big |
| `Freezer.CrashAtomicity` | pkg/freezer/walker.go:98-244 | crash atomicity: from any byte-prefix of a file of committed transactions the walker reads exactly the transactions wholly written, in order and entry for entry, up to the first that is too big, then ends in end of file, unexpected end of record, or at that one |
| `Freezer.OversizedCanBeWritten` | pkg/freezer/writer.go:104-140 | 255 entries of the greatest size make a transaction the writer takes and the walker refuses, whatever follows it |
| `Freezer.LostBehindOversized` | pkg/freezer/walker.go:114-119 | a file with a transaction that is too big reads as all before it; everything after it is lost |
| `FreezerReader.FedExact` | pkg/freezer/walker.go:55-68 | what is summed while a buffer is filled is its bytes exactly when one read fills it, and longer otherwise, since the whole buffer is summed and only the bytes delivered are counted |
| `FreezerReader.FedInTwo` | pkg/freezer/walker.go:55-68 | a buffer filled by two reads is summed as the first part, zeros for the rest, and the second part |
| `FreezerReader.FullIsHarmless` | pkg/freezer/walker.go:98-244 | from any input, if no read of the body comes short, the result is that of a source that fills its buffers; short reads of the fields in front do no harm |
| `FreezerReader.RecordVia` | pkg/freezer/walker.go:98-244 | a committed record read by any plan of short reads is accepted if and only if the checksum of what was summed is that of the body, which is the body if and only if no read came short |
| `FreezerReader.AcceptedIffFull` | pkg/freezer/walker.go:98-244 | with a checksum that tells those two apart, the record is accepted if and only if no read came short |
| `FreezerReader.ShortReadRefused` | pkg/freezer/walker.go:55-68 | a reading that fails: one of the two bytes of the first entry's kind is delivered, and an intact record is refused |
| `FreezerReader.AmpleWalk` | pkg/freezer/walker.go:98-244 | a source whose reads deliver whatever a log asks for at once reads, from any input, what the walk above reads |
| `FreezerLog.Log.Put` | pkg/freezer/writer.go:77-84 | one value is a transaction of its own; errors leave the file alone |
| `FreezerLog.Transaction.Put` | pkg/freezer/writer.go:98-162 | each error in its order; else the buffer is the body of one entry more |
| `FreezerLog.Transaction.Commit` | pkg/freezer/writer.go:166-195 | appends exactly the record of the transaction to the file |
| `FreezerLog.FileAppend` | pkg/freezer/writer.go:166-195 | appending a record to a file of transactions is the file with the transaction appended |
| `FreezerLog.Walker.ReadFull` | pkg/freezer/walker.go:53-68 | the loop that fills a buffer by any plan of short reads gets its bytes and sums, read by read, all of the buffer left to fill; at the end of the input it fails with nothing left |
| `FreezerLog.Walker.ReadFrame` | pkg/freezer/walker.go:139-159 | reads kind, length and payload, or stops wherever the input ends, with both accounts |
| `FreezerLog.Walker.ReadEntries` | pkg/freezer/walker.go:138-233 | the loop over entries computes the scan, with errors told apart, counting bytes delivered and summing buffers |
| `FreezerLog.Walker.Next` | pkg/freezer/walker.go:98-244 | the whole, for any plan of short reads: the outcome of the functional reader, and the input it leaves, after errors too |
| `Varint.ComesBackIffGood` | pkg/packetdata/packetdata.go:97-171 | for every 64-bit value and surrounding bytes: it is written without loss and read back up to its last byte if and only if its magnitude lies outside [0x200000, 0x10000000) and it is not -1 to -4 |
| `VarintNumbers.FirstByte` | pkg/packetdata/packetdata.go:143-171 | in plain arithmetic, for every first byte: how many bytes follow and what its own part of the number is |
| `VarintNumbers.TwoByteForm` | pkg/packetdata/packetdata.go:148-149 | any bytes that begin with 0x80 to 0xbf read as (first - 0x80) * 256 + second, the missing byte being zero and the buffer invalid |
| `VarintNumbers.ThreeByteForm` | pkg/packetdata/packetdata.go:166-168 | likewise from 0xc0 to 0xdf, with two bytes |
| `VarintNumbers.FourByteForm` | pkg/packetdata/packetdata.go:164-165 | likewise from 0xe0 to 0xef, with three bytes, a form that is never written |
| `VarintNumbers.FiveByteForm` | pkg/packetdata/packetdata.go:150-153 | a mark from 0xf0 to 0xf3 reads four bytes |
| `VarintNumbers.NineByteForm` | pkg/packetdata/packetdata.go:154-155 | a mark from 0xf4 to 0xf7 reads eight bytes |
| `VarintNumbers.ComplementForm` | pkg/packetdata/packetdata.go:156-157 | a mark from 0xf8 to 0xfb reads as the complement of what follows |
| `VarintNumbers.ValueForm` | pkg/packetdata/packetdata.go:158-159 | 0xfc to 0xff alone read as -1 to -4 |
| `VarintNumbers.BigIsNumber` | pkg/packetdata/packetdata.go:143-171 | up to eight bytes read as the number they are, most significant first |
| `VarintNumbers.MarkIs` | pkg/packetdata/packetdata.go:97-109 | which values are written as complements, and with which mark |
| `VarintNumbers.DigitsLength` | pkg/packetdata/packetdata.go:110-141 | how many numbers are written for a magnitude |
| `VarintNumbers.GapLoses` | pkg/packetdata/packetdata.go:117-121 | in the gap the first of three numbers is refused exactly from 0x1000000 on |
| `Varint.ShortReads` | pkg/packetdata/packetdata.go:143-171 | nothing read from three bytes or fewer, complements included, has such a magnitude, so no other reader could help |
| `Varint.StrayByte` | pkg/packetdata/packetdata.go:103-112 | after one of -1 to -4 the value is read but one byte is left over |
| `Varint.ListRoundTrip` | pkg/packetdata/packetdata.go:97-171 | any list of good values, written back to back among any other bytes, is read back in order and to its last byte |
| `Varint.BigSpelled` | pkg/packetdata/packetdata.go:143-171 | joining the low bytes of a number to its high bits gives the number, for any count of bytes |
| `PacketData.StoredConcat` | pkg/packetdata/packetdata.go:78-92 | appending in two goes is appending in one, with the buffer's end anywhere in between |
| `PacketData.BufferRoundTrip` | pkg/packetdata/packetdata.go:97-171 | good values put into a buffer with room for them leave it valid, and reading from where they began gives them back using exactly the bytes written |
| `PacketData.NeverRegained` | pkg/packetdata/packetdata.go:28-92 | over every sequence of operations the offset stays within the buffer and validity once lost is never regained |
| `PacketData.FilledExact` | pkg/packetdata/packetdata.go:315-326 | bytes are put all or not at all, and those put stand from the old offset on |
| `PacketData.KeptInRoom` | pkg/packetdata/packetdata.go:78-92 | numbers appended where there is room stand from the old offset on; validity is lost exactly if one of them fits no byte |
| `PacketData.KeptShort` | pkg/packetdata/packetdata.go:78-92 | what is written when room runs out is the bytes that fit, the others being counted |
| `PacketBuffer.Buffer.Append` | pkg/packetdata/packetdata.go:78-92 | one number: refused above 0xff, stored, or counted as overshoot |
| `PacketBuffer.Buffer.AddVarint` | pkg/packetdata/packetdata.go:97-141 | writes the encoding of the value, as far as there is room |
| `PacketBuffer.Buffer.GetVarint` | pkg/packetdata/packetdata.go:143-171 | terminates on any bytes, its recursion included, and reads what the functional reader reads |
| `PacketBuffer.Buffer.Next` | pkg/packetdata/packetdata.go:53-62 | the next byte, or zero and invalid at the end |
| `PacketBuffer.Buffer.Next8` | pkg/packetdata/packetdata.go:65-74 | likewise |
| `PacketBuffer.Buffer.SkipFrames` | cmd/grumble/client.go:367-374 | terminates on any bytes; the buffer stays valid exactly when the frames are whole, and reading then stands behind the last |
| `VoiceFrames.FramesIff` | cmd/grumble/client.go:367-374 | passing over frames ends at q if and only if the bytes up to q are whole frames: heads of 128 and more are followed by another frame, the last head is below, and every payload is as long as its head says |
| `PacketBuffer.Buffer.SkipBytes` | pkg/packetdata/packetdata.go:32-38 | skips within the buffer, else marks it invalid |
| `PacketBuffer.Buffer.PutAll` | pkg/packetdata/packetdata.go:315-326 | all bytes or none, the missing room being counted |
| `PacketBuffer.Buffer.CopyOut` | pkg/packetdata/packetdata.go:303-311 | copies from where reading stands, which does not move |
| `VoiceTarget.CollectChannels` | cmd/grumble/voicetarget.go:79-98 | the channels of one target are exactly the channel or its link closure, with its subtree if asked |
| `VoiceTarget.Target.MembersOf` | cmd/grumble/voicetarget.go:99-107 | their members whom the sender may whisper to and who are in the group asked for |
| `VoiceTarget.Target.ComputeAudience` | cmd/grumble/voicetarget.go:69-122 | the audience is exactly the declared one: reached through channels, and listed sessions not so reached, both without the sender |
| `VoiceTarget.AudienceIs` | cmd/grumble/voicetarget.go:69-109 | who is reached through channels, by walks: whoever a channel lists that the sender may whisper to and that links or children lead to from a target, in the group asked for |
| `VoiceTarget.LinklessTarget` | cmd/grumble/voicetarget.go:87-89 | a target that asks for links covers its own channel if and only if that has a link, and without links or sub-channels nobody at all |
| `VoiceTarget.AudienceDisjoint` | cmd/grumble/voicetarget.go:111-122 | its two parts are disjoint, lack the sender, and together are those reached and all connected sessions listed |
| `VoiceTarget.Target.SendVoiceBroadcast` | cmd/grumble/voicetarget.go:61-170 | computes the audience only when none is cached, keeps it, attempts every member exactly once, and sends to exactly those who pass the receive checks |
| `VoiceTarget.Target.ClearCache` | cmd/grumble/voicetarget.go:54-57 | nothing is cached afterwards |
| `VoiceTarget.AudienceIsFresh` | cmd/grumble/voicetarget.go:54-131 | in any series of sends and clearings, a send after a clearing uses the audience of the server as it is then |
| `VoiceTarget.AudienceIsKept` | cmd/grumble/voicetarget.go:54-131 | in any series of sends and clearings, however the server changes, a send uses the audience of every earlier send since the last clearing |
| `SessionPool.RunKeeps` | pkg/sessionpool/sessionpool.go:44-93 | over every run in which only live ids are returned, tracked or not: outstanding and unused ids partition 1..cur, the unused ones distinct |
| `SessionPool.NeverSharedByTwo` | pkg/sessionpool/sessionpool.go:44-76 | in every run the id handed out is non-zero and not outstanding |
| `SessionPool.DepletedIffAllLive` | pkg/sessionpool/sessionpool.go:63-68 | ids run out exactly when all 2^32 - 1 are outstanding |
| `SessionPool.RefusedIffUnknown` | pkg/sessionpool/sessionpool.go:79-93 | a number is refused exactly if the pool tracks and does not know it |
| `SessionPool.ReusedFirst` | pkg/sessionpool/sessionpool.go:55-93 | the id returned last is handed out next, and then all is as before |
| `SessionPool.Sessions.GetId` | pkg/sessionpool/sessionpool.go:44-76 | in place, with the deferred note of the id, which on depletion notes zero |
| `SessionPool.Sessions.ReclaimId` | pkg/sessionpool/sessionpool.go:79-93 | in place; a tracking pool refuses ids it does not know |
| `SessionPool.Sessions.EnableUseTracking` | pkg/sessionpool/sessionpool.go:35-40 | only on a pool never used |
| `CodecElection.Tally` | cmd/grumble/server.go:783-791 | counts what the clients name, and whether all have Opus |
| `CodecElection.Elect` | cmd/grumble/server.go:793-801 | in every order of the map: most users, ties to the largest codec, zero if none |
| `CodecElection.UsersAre` | cmd/grumble/server.go:783-791 | the users of a codec are its occurrences in the multiset of everything named |
| `CodecElection.ElectedIs` | cmd/grumble/server.go:793-801 | the election without a tally: elected is who occurs most often in that multiset, the larger of equals, and zero if it is empty |
| `CodecElection.OneWinner` | cmd/grumble/server.go:793-801 | there is one winner, so the order cannot matter |
| `CodecElection.Codecs.UpdateCodecVersions` | cmd/grumble/server.go:783-832 | afterwards the preferred slot is the winner, the other slot is untouched, Opus is on exactly when all clients have it, and an announcement is made exactly when something changed |

## Left out

- Ocb2.Encrypt: source and destination are not one buffer; the source is a sequence, so overlapping slices are not modelled.
- Ocb2.Decrypt: likewise, and the tag comparison in constant time is a comparison.
- CryptState.AtMostOnce: holds between resynchronisations; setting a new nonce and the timers that ask for one are not modelled.
- CryptState.PeersStayInSync: plaintexts are non-empty, since the mode panics on empty ones.
- BoardIsolation.BoardsStayApart: enforcement is on, and who a connection is stays fixed once it has authenticated.
- BoardHearing.BoardMatesHearEachOther: asks that nobody else makes a room for the board between a client's resolving and its joining, which the single handler of authentications guarantees and the steps of the model do not.
- ChannelServer.Server.CreateChannel: the permission and certificate checks are one answer given; names, descriptions and the creator's admin group are not modelled.
- ChannelServer.Server.Reparent: likewise for the permissions and the name of a sibling.
- CryptEndpoint.Endpoint.Decrypt: what a failed attempt leaves in the destination buffer is not modelled.
- AclContext.GroupMemberCheck: group strings naming the path-based `sub` group are excluded, since the original slices beyond the end of that name and panics; `GroupNames`, which iterates an empty list, is left out.
- AclContext.ApplyEntries: chains with an entry that names the `sub` group are excluded, on which the original panics.
- AclContext.GrantedIn: likewise.
- AclContext.HasPermission: likewise.
- PacketBuffer.Buffer.PutAll: source and buffer are different arrays.
- PacketBuffer.Buffer.CopyOut: so are buffer and destination.
- PacketBuffer.Buffer.SkipBytes: counts are not negative, as with all callers.
- VoiceRooms.VoiceRoomManager.JoinRoom: team ids, room names and creation times are left out; they decide nothing.
- CodecElection.Codecs.UpdateCodecVersions: the text messages to clients without Opus are left out.
- Floating-point values in packets and the narrower integer accessors, which truncate the same varint.
- The null and XSalsa20-Poly1305 modes, AES, CRC-32, protobuf, token validation, hashing and certificates.
- Sockets, TLS, the web listener, signals, logging, bans, text filtering, the blob store, configuration and the Murmur import.
- Freezing a live server and replaying a log into one, where the stored and the live state differ by design.
- The one-slot queue of temporary channels to remove, and whether a removal is ever requested.
- Sibling-name uniqueness and coherence of whisper caches after disconnects, neither of which the server maintains.
