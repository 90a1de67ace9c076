# A verified model of NoxSSH

NoxSSH implements both ends of SSH-2: a client library with a command-line program, and an opt-in Linux server. This project
models the protocol core of both in Dafny 4.11 and proves what the two ends keep, alone and together. `dafny verify
dfyconfig.toml` checks all of it. Paths below are relative to the root of the NoxSSH repository; `common/noxssh_common.c` is
the client's protocol layer and `common/noxssh_server.c` the server's.

The cryptographic library is a record of functions (`Cipher.Suite`). Two laws are asked of it where they are needed, and only
there: both ends of X25519 reach the same secret, and an Ed25519 signature verifies under the signer's key. Counter mode, MAC
coverage, hash inputs and key derivation are built from those functions as the code builds them.

What is sent and what is accepted is also stated byte by byte, without the functions that compute it: message numbers, names
and constants are written as literals, and for each reader a lemma says of any packet that it is accepted if and only if its
bytes have that form (names ending in `Written` and `Exactly`).

The parts, from the bottom up:

- **Wire** (`Octets`, `Wire`, `Mpint`, `NameList`, `KexInit`): bytes, 32-bit words, strings, mpints, name-lists and KEXINIT,
  with the append-at-offset buffers as a class.
- **Packets** (`Cipher`, `Packet`, `PacketBytes`, `Transport`, `PacketLayer`, `Delivery`): framing, padding, AES-CTR with its carry loop, MAC,
  sequence numbers; `send_packet` and `recv_packet` as methods of a class over a transport that moves as many bytes per call as
  it likes; whole runs between two such ends, for every order of their steps and every fragmentation.
- **First key exchange** (`Identification`, `KeyExchange`, `Handshake`, `HandshakeSteps`, `Interleaving`, `FirstExchange`,
  `PartialTransfer`, `HostAuthentication`): two sequential programs over two byte streams, interleaved freely, up to and beyond
  the switch to encryption. The theorems are about every interleaving, of whole messages and of single bytes; and about each
  program against any peer, where they say what it accepts and sends, and that the client never gets through without a signature
  that verifies under the host key it was shown.
- **Server connection** (`UserAuth`, `Messages`, `ServerTrace`, `Server`, `ServerRequests`): authentication, one channel, one session, windows,
  the end of the channel and the drain. `Server.Connection` holds the fields of `netnox_ssh_server_t` and one method per
  function of the code; what the transport, the clock, the key callback and the child do is chosen freely at each step. Every
  event goes into a ghost trace, each event must be one that the policy in `ServerTrace` allows, and the theorems are about
  every trace within the policy. So they hold of every run of `ServeOne`.
- **End to end** (`ClientOutput`, `ServerStream`, `ExecRun`): the client's wait for the reply to exec, its `recv_data` and its
  print loop behind that server; the server's run as packets that a receiver decodes; and both joined, from the bytes on the
  wire behind a key exchange to what is printed.
- **Supporting parsers** (`HostPattern`, `Base64`): host patterns and lists; the server's key printer, the key decoder and the
  client's base64 decoder.

Where the code does less than its documentation or the RFCs ask, the code is kept and the exact condition is proved:

- The bounds test of `read_string_view` adds 32-bit numbers. It accepts only fields that lie inside the payload exactly when
  the sum of offset and length does not wrap (`Wire.CodeAcceptsExactly`), and there are packets on which it wraps
  (`Wire.WrappedLengthAccepted`).
- An identification of 255 characters may be configured, but a line comes through exactly when it has at most 254
  (`Identification.LineRoundTrip`, `Identification.LongestIdentLost`).
- The client's base64 decoder accepts more than standard base64; encoding what it returns gives the text back exactly when the
  text is canonical (`Base64.EncodeOfDecode`), and a digit behind padding is one way to differ (`Base64.LaxGroup`).
- The server goes on answering after its CLOSE. A packet that comes in then is answered if and only if `ServerTrace.ReplyTo`
  gives an answer: a request for the authentication service, or by a logged-in user for the connection service; a well-formed
  global request that wants a reply; and data for the channel that leave at most 65536 of the server's window
  (`ServerTrace.AfterCloseExactly`). Nothing else is sent (`ServerTrace.NothingAfterClose`), and
  `ServerTrace.AdjustAfterClose` gives a run in which an adjustment follows a CLOSE.
- What is written to the child is what was received for it exactly as long as no EOF was passed on to a terminal, which takes
  one byte more (`ServerTrace.InputWritten`).

## Model

| member | source | states |
|---|---|---|
| Octets.U32Written | common/noxssh_common.c:572-596 | a word is its four bytes by shifts and masks, most significant first |
| Wire.ReadStringFrom | common/noxssh_common.c:752-775 | a string is read back where it was written, with the offset behind it, whatever follows |
| Wire.StrSplits | common/noxssh_common.c:705-729 | length-prefixed fields are a prefix code: equal bytes have equal first fields and equal rests |
| Wire.ReadStringExactly | common/noxssh_common.c:752-775 | a field is read at an offset if and only if its length and bytes are written there |
| Wire.CodeAcceptsExactly | common/noxssh_common.c:766-768 | the code's bounds test agrees with the true bounds exactly when the 32-bit sum does not wrap |
| Wire.WrappedLengthAccepted | common/noxssh_server.c:375-377 | a packet on which the test wraps and accepts a field outside the payload |
| Wire.PayloadBuffer.AppendRaw | common/noxssh_common.c:887-908 | as long as the 32-bit sum of the lengths does not wrap: the bytes are added behind the contents exactly when they fit; otherwise nothing changes |
| Wire.PayloadBuffer.AppendString | common/noxssh_common.c:705-729 | with the same sum: length and bytes are added together exactly when both fit |
| Mpint.MpintKeepsValue | common/noxssh_common.c:910-946 | the signed reading of the encoded body is the unsigned value of the input, and the sign bit is clear |
| Mpint.MpintMinimal | common/noxssh_server.c:498-531 | no body that reads as the same number is shorter |
| Mpint.MpintCanonical | common/noxssh_common.c:910-946 | two inputs have the same encoding if and only if they have the same value, so leading zeros are ignored |
| Mpint.MpintWritten | common/noxssh_common.c:910-946 | leading zeros go, a zero comes in front of a byte from 128 on, and zero is the empty string |
| Mpint.MpintInjective | common/noxssh_common.c:910-946 | an encoded number of known length can be read back in front of anything |
| Mpint.AppendMpint | common/noxssh_common.c:910-946 | the zero-skipping method appends exactly the mpint encoding, or refuses when it does not fit |
| NameList.Contains | common/noxssh_common.c:786-812 | the scan finds exactly the nonempty tokens that are names of the comma-split list |
| NameList.SplitOfJoin | common/noxssh_server.c:384-408 | any list of comma-free names survives joining and splitting |
| NameList.JoinOfSplit | common/noxssh_server.c:384-408 | splitting a name-list loses nothing |
| KexInit.PayloadParses | common/noxssh_common.c:1441-1492 | for any cookie and any lists, a KEXINIT parses back to its lists |
| KexInit.AcceptedIff | common/noxssh_common.c:824-881 | a KEXINIT passes validation if and only if each required name is on its list |
| KexInit.BothSidesAccept | common/noxssh_server.c:411-477 | whatever cookies are drawn, each side accepts the KEXINIT the other builds |
| KexInit.ClientAcceptsExactly | common/noxssh_common.c:824-881 | on any packet: the client's check passes if and only if it is number 20, a cookie, and eight lists with the eight required names, in this order |
| KexInit.ServerAcceptsExactly | common/noxssh_server.c:411-477 | on any packet: the server's check passes if and only if the same holds and two more fields follow |
| KexInit.ClientPayloadWritten | common/noxssh_common.c:1441-1492 | the client's KEXINIT byte by byte, with every name it offers |
| KexInit.ServerPayloadWritten | common/noxssh_server.c:796-860 | the server's KEXINIT byte by byte |
| KexInit.Build | common/noxssh_common.c:1441-1492 | the appends produce exactly that payload, and both sides' lists fit the 1024-byte buffer |
| Cipher.CtrIncrementBlocks | common/noxssh_common.c:386-396 | the carry loop adds the block count to the 16-byte counter modulo 2^128 |
| Cipher.AdvanceAdvance | common/noxssh_common.c:386-396 | counter increments compose additively |
| Cipher.AdvanceInjective | common/noxssh_server.c:181-190 | within one cycle different distances give different counters |
| Cipher.CtrSplit | common/noxssh_common.c:1687-1723 | counter mode on the first blocks, then on the rest at the advanced counter, equals one-shot counter mode |
| Cipher.CtrTwice | common/noxssh_common.c:1562-1573 | decryption inverts encryption under the same key and counter |
| Cipher.CtrWritten | common/noxssh_common.c:1562-1573 | byte i of the output is byte i of the data against byte i % 16 of the cipher applied to the counter plus i / 16, modulo 2^128 |
| Cipher.XorWritten | common/noxssh_common.c:1562-1573 | exclusive or, bit by bit |
| Packet.PadLenLeast | common/noxssh_common.c:1504-1540 | the padding chosen is the least of at least 4 that fills whole blocks |
| Packet.ComputePadding | common/noxssh_common.c:1504-1540 | the search loop returns that padding |
| Packet.RoundTrip | common/noxssh_common.c:1656-1796 | decoding an encoded packet gives its payload, leaves what follows alone, and takes the receiver to the sender's next state |
| PacketBytes.SendableExactly | common/noxssh_common.c:1504-1540 | a packet may be sent if and only if it has a payload, fits 35000 bytes, and fills whole blocks of 8 or 16 bytes with the least padding of four bytes or more |
| PacketBytes.EncodeWritten | common/noxssh_common.c:1541-1600 | the bytes sent: length, padding length, payload, padding; once encrypted, these under the key stream, and the MAC over sequence number and all of them |
| PacketBytes.DecodeExactly | common/noxssh_common.c:1656-1796 | on any bytes, in either mode: a packet is taken if and only if the bytes start with a frame of right sizes and, once encrypted, the 32 bytes behind it are the MAC over sequence number and plain frame; and the state behind it |
| PacketBytes.WrongNumber | common/noxssh_server.c:987-990 | a packet sealed under one sequence number and opened under another is taken if and only if the two MACs are the same |
| Packet.RunSynchronised | common/noxssh_common.c:1504-1796 | for every list of payloads and padding, decoding the run gives them back in order, each MAC passing, with equal counters and sequence numbers at both ends; Delivery carries this to the receive loop |
| Packet.CountersDisjoint | common/noxssh_server.c:909-917 | no two packets of one direction share a counter value while fewer than 2^128 blocks are used |
| Packet.CountersDisjointInBytes | common/noxssh_server.c:909-917 | no two packets of a run of fewer than 2^32 bytes share a counter value; ServerTrace.CountersDisjoint states it of a whole connection |
| Transport.Pipe.SendAll | common/noxssh_common.c:436-463 | on success exactly the data are on the wire, however the callback splits them; it succeeds while the callback accepts |
| Transport.Pipe.RecvExact | common/noxssh_common.c:465-500 | on success exactly the next bytes of the stream are taken, however the callback splits them |
| PacketLayer.Endpoint.SendPacket | common/noxssh_common.c:1504-1654 | on success the wire grows by exactly these bytes: length, padding length, payload, padding in the clear; or once encrypted these under the key stream and `hmac(key, sequence number and plain frame)`. The outgoing state moves on and the callback keeps what it would accept beyond the packet; the incoming state is untouched; refused packets change nothing |
| PacketLayer.Endpoint.SendSealed | common/noxssh_server.c:896-917 | ciphertext and `hmac(key, sequence number and plain packet)` are sent, the counter advances by the packet's blocks, and sent bytes are counted |
| PacketLayer.Endpoint.RecvPacket | common/noxssh_server.c:934-1038 | on success payload, rest of the stream and new state are what decoding says, which `PacketBytes.DecodeExactly` spells out, and the callback keeps what it would deliver beyond the packet; it fails only when decoding does, if the callback delivers |
| PacketLayer.Endpoint.SwitchOn | common/noxssh_common.c:1210-1246 | both directions switch to encryption at once; counter, key and MAC key are the digests over K, H, a letter and H, with A, C, E for the client's sending direction and B, D, F for the server's, crosswise for receiving; sequence numbers run on; it fails exactly without a session id |
| Delivery.Deliver | common/noxssh_common.c:1504-1796 | one end sends a list of packets and another receives, in any order of the steps and for any fragmentation: what was received is the beginning of what was sent, both ends are in the states of the run, and no step fails while the callbacks move bytes |
| Delivery.DeliverAll | common/noxssh_common.c:436-500 | all payloads arrive in order, both ends have the same keys, counter and sequence number, and the stream is empty |
| Delivery.TakeKeeps | common/noxssh_server.c:934-1038 | whatever is in flight, the next packet decodes to the next payload of the list and the rest stays in flight |
| Identification.RecvLine | common/noxssh_common.c:502-550 | one byte at a time, the line reader returns what the reading of the whole stream says |
| Identification.LineRoundTrip | common/noxssh_common.c:506-546 | a line comes through if and only if it has at most 254 characters |
| Identification.LongestIdentLost | common/noxssh_common.c:531-546 | a 255-character identification arrives as an empty line |
| Identification.IdentBehindBanner | common/noxssh_common.c:2396-2412 | an identification is found behind fewer than n other lines, and not behind n |
| KeyExchange.HashInputInjective | common/noxssh_common.c:994-1055 | equal hash inputs come from equal identifications, KEXINITs, host keys, public keys and secrets |
| KeyExchange.HashInputWritten | common/noxssh_common.c:994-1055 | the hash input field by field: both identifications, both KEXINITs, host key, both public keys, and the secret as an mpint |
| KeyExchange.KeyBlock | common/noxssh_common.c:1081-1203 | block j of a key: the first is the digest over K, H, the letter and the session id, each further one the digest over K, H and the key so far |
| KeyExchange.BuildHashInput | common/noxssh_server.c:561-616 | the appends build exactly the hash input, and fail exactly when it exceeds the buffer |
| KeyExchange.DeriveKeyBlock | common/noxssh_common.c:1081-1203 | the loop fills the output with the prefix of the K1, K2, ... expansion, and succeeds exactly when its buffers admit the length |
| KeyExchange.ExpansionPrefix | common/noxssh_server.c:632-735 | a longer expansion starts with every shorter one |
| KeyExchange.KeyPrefix | common/noxssh_server.c:632-735 | a shorter key is a prefix of a longer one with the same selector |
| HandshakeSteps.ServerTakesClientInit | common/noxssh_server.c:1079-1186 | from the client's ECDH message the server arrives at the agreed secret and hash |
| HandshakeSteps.ClientTakesServerReply | common/noxssh_common.c:1250-1429 | from the server's reply the client arrives at the same secret and hash, and the host's signature verifies; that nothing else is taken is `HostAuthentication.ReplyTakenExactly` |
| HandshakeSteps.HostVerifies | common/noxssh_common.c:224-380 | the Ed25519 host signature over the exchange hash passes the client's check |
| HandshakeSteps.TranscriptFits | common/noxssh_server.c:561-632 | the hash input of this client and this server always fits the buffer |
| Interleaving.Preserved | common/noxssh_common.c:1250-1429 | every action of either side keeps the invariant of both directions: messages in flight, histories, states and counters |
| FirstExchange.AnyChoiceIsReady | common/noxssh_common.c:1250-1290 | the conditions of the four theorems below hold for whatever identifications, cookies and secrets the two ends choose, unless the library refuses the exchange |
| FirstExchange.ModesMatch | common/noxssh_server.c:1040-1186 | in every interleaving every packet is taken in order and in the mode, plain or encrypted, it was sent in |
| FirstExchange.AlwaysProgress | common/noxssh_server.c:1729-1766 | no reachable state of the exchange is stuck, and afterwards every packet in flight can be taken |
| FirstExchange.SidesAgree | common/noxssh_common.c:1210-1246 | at completion both sides hold the same session id, secret and six key values, and the directions agree crosswise when nothing is in flight |
| FirstExchange.StartOfEncryption | common/noxssh_server.c:738-764 | at the end of the exchange both directions start with sequence number 3, the client's with counter, key and MAC key for the letters A, C, E and the server's for B, D, F |
| FirstExchange.KeysWritten | common/noxssh_common.c:1210-1246 | the six values, letter by letter, as digests over K, H, the letter and H |
| FirstExchange.SessionIdWritten | common/noxssh_server.c:561-632 | at completion both session ids are the digest over the hash input written out field by field |
| HostAuthentication.WaitForExactly | common/noxssh_common.c:1922-1975 | the wait ends with a packet if and only if it is the first of the wanted kind, among the first n, behind no KEXINIT and no number 255, and within the buffer |
| HostAuthentication.ReplyTakenExactly | common/noxssh_common.c:1250-1352 | for any client state and any bytes: the client goes on if and only if the packet it waits for is a reply whose host key, Ed25519 or RSA, verifies its signature over the session id, which is the digest over what the client sent and received; it stores this id and the secret shared with the key in the reply |
| HostAuthentication.NoSessionWithoutHost | common/noxssh_common.c:224-380 | whatever program runs at the other end and however moves interleave: a client that is done has taken such a reply for the session id it holds, and encrypts both ways with keys from that id and secret |
| HostAuthentication.InitTakenExactly | common/noxssh_server.c:1079-1130 | the server goes on if and only if the next packet is a key exchange message with 32 bytes of public key, and stores the secret and the digest written out |
| HostAuthentication.BannerSkipped | common/noxssh_server.c:1738-1750 | both programs find the peer's identification behind fewer than eight other lines, and give up behind eight |
| HostAuthentication.ServerKexInitTakenExactly | common/noxssh_common.c:1833-1857 | the client goes on if and only if the next packet is a KEXINIT with the eight names, of at most 32768 bytes, and stores it |
| HostAuthentication.ClientKexInitTakenExactly | common/noxssh_server.c:1048-1063 | the same for the server, with two more fields behind the lists |
| HostAuthentication.ClientSwitchesOn | common/noxssh_common.c:1406-1428 | the client switches if and only if the packet it waits for is a NEWKEYS, to A, C, E for sending and B, D, F for receiving, and its sequence numbers run on |
| HostAuthentication.ServerSwitchesOn | common/noxssh_server.c:1170-1185 | the server switches if and only if the next packet is a NEWKEYS of at most 64 bytes, crosswise |
| HostAuthentication.PacketsWritten | common/noxssh_server.c:1130-1170 | against any peer: what a program sends begins with its KEXINIT, its key exchange message and NEWKEYS, in the clear and byte by byte; the server's reply carries a signature over the session id it holds |
| PartialTransfer.RunOfMessages | common/noxssh_common.c:436-500 | every run in which sends are cut into pieces, and the peer acts on what has arrived, is seen as a whole the run of the same actions message by message |
| PartialTransfer.ModesMatch | common/noxssh_server.c:1040-1186 | however the bytes are moved, every packet is taken in order and in the mode it was sent in |
| PartialTransfer.AlwaysProgress | common/noxssh_server.c:1729-1766 | no state with half-sent messages is stuck: a send can go on, or a program can move, or what is in flight can be taken |
| PartialTransfer.SidesAgree | common/noxssh_common.c:1210-1246 | session id, secret and keys agree at completion, however the bytes are moved |
| UserAuth.BuildSignedRequest | common/noxssh_common.c:2137-2224 | the client's packet is the request and the signature over session id and request |
| UserAuth.SignedRequestVerifies | common/noxssh_server.c:1676-1725 | the server reads the client's request completely, rebuilds byte for byte what was signed, and the signature verifies |
| UserAuth.OfferIsBound | common/noxssh_server.c:1702-1720 | for any packet, what gets verified is this session's id and the one request for the user and key that were read |
| UserAuth.ToSignInjective | common/noxssh_server.c:1711-1717 | the signed bytes determine session, user, flag and key |
| UserAuth.RequestWritten | common/noxssh_common.c:2137-2224 | the client's request and what its signature covers, byte by byte |
| UserAuth.OfferExactly | common/noxssh_server.c:1676-1697 | on any packet: an offer is read if and only if the packet begins with the request for this user, flag and key |
| UserAuth.MalformedExactly | common/noxssh_server.c:1660-1671 | the handler gives up the connection exactly on packets without three strings behind the message number |
| UserAuth.SignatureExactly | common/noxssh_server.c:1702-1708 | a signature is read if and only if it is all that is behind the request, under the algorithm's name |
| ServerRequests.SignedOfferExactly | common/noxssh_server.c:1676-1721 | on any packet: it is a signed offer if and only if it is the request for a user and a key, and a signature that verifies over session id and request |
| ServerRequests.QueryAnsweredExactly | common/noxssh_server.c:1698-1701 | the answer is PK_OK with a key if and only if the callback approves and the packet is exactly the unsigned request for that key |
| ServerRequests.OtherwiseRefused | common/noxssh_server.c:1649-1727 | who is admitted is told so, and whatever is neither admitted nor such a request is answered with FAILURE |
| Messages.ClientUnderstands | common/noxssh_common.c:2883-2975 | the client reads from each packet of the server what the server put into it |
| Messages.PayloadWritten | common/noxssh_server.c:1188-1380 | each of the thirteen messages of the server, byte by byte |
| Messages.PayloadInjective | common/noxssh_server.c:1188-1380 | two messages with the same bytes are the same message |
| Messages.OpenExactly | common/noxssh_server.c:1961-1971 | an open is read if and only if the packet begins with kind, sender, window and packet size, in this order |
| Messages.GlobalExactly | common/noxssh_server.c:1252-1266 | a global request is read if and only if it begins with a nonempty name and the byte that wants a reply or not |
| Messages.DataExactly | common/noxssh_server.c:2099-2117 | data are read if and only if number, channel and string are written; in a session with nothing behind them |
| Messages.AdjustExactly | common/noxssh_server.c:1551-1555 | a window adjustment is read if and only if number, channel and amount are written |
| Messages.AsksExactly | common/noxssh_server.c:1913-1937 | a service is asked for if and only if number and name are written |
| Messages.EndExactly | common/noxssh_server.c:1385-1399 | EOF and CLOSE are exactly five bytes: the number and the channel |
| Messages.RequestExactly | common/noxssh_server.c:1990-2006 | a channel request is read with its kind, its wish for a reply, and the offset behind them, as written behind the channel |
| Messages.OutputSeenExactly | common/noxssh_common.c:2905-2935 | a waiting client gets these data if and only if the packet begins as channel data, plain or extended, with them |
| Messages.StatusSeenExactly | common/noxssh_common.c:2936-2962 | it gets this status if and only if the packet begins as an exit-status request with it |
| Messages.EndSeenExactly | common/noxssh_common.c:2963-2972 | it sees the end exactly at EOF and CLOSE |
| Messages.RestSeenExactly | common/noxssh_common.c:2883-2975 | of the rest, other packets and well-formed requests of other kinds are passed over, and malformed data or requests make it give up |
| ServerTrace.OneChannelOneSession | common/noxssh_server.c:1947-1984 | at most one channel is confirmed and at most one session runs on a connection |
| ServerTrace.NothingAfterClose | common/noxssh_server.c:1385-1399 | after a CLOSE no session begins, and whatever is sent is the one answer, by ReplyTo, to the packet received last, which came in behind the CLOSE |
| ServerTrace.AnsweredExactly | common/noxssh_server.c:1909-1937 | at any time: until the server moves on to the next packet, the clock or success, a packet gets exactly one answer if ReplyTo gives one, that one, and none otherwise; failing instead ends the connection |
| ServerTrace.AfterCloseExactly | common/noxssh_server.c:1875-1937 | after a CLOSE, that answer is sent if and only if ReplyTo gives it, and nothing else is sent |
| ServerTrace.DrainAnswers | common/noxssh_server.c:1875-1937 | every packet that ReplyTo has an answer for can come in behind a CLOSE that was sent, and that answer follows |
| ServerTrace.AdjustAfterClose | common/noxssh_server.c:2099-2117 | a run, for any user whose key verifies, in which a window adjustment follows a CLOSE |
| ServerTrace.ConfirmedBefore | common/noxssh_server.c:1985-1996 | CLOSE, data, EOF, exit status and session come only after a confirmation that was sent |
| ServerTrace.CleanEnd | common/noxssh_server.c:1593-1608 | a session succeeds only after exit status, EOF and CLOSE in this order, or after answering the peer's CLOSE |
| ServerTrace.SessionIsAuthorised | common/noxssh_server.c:1649-1727 | a session runs only for a user the callback approved with a key that verified over this session's id |
| ServerTrace.OneLogin | common/noxssh_server.c:1938-1942 | the stored user never changes |
| ServerTrace.AtMostSixTries | common/noxssh_server.c:1942-1942 | at most six authentication requests are processed |
| ServerTrace.OutputConserved | common/noxssh_server.c:1581-1591 | what was read from the child is what was put into data packets, in order, but for a chunk in hand |
| ServerTrace.OutputComplete | common/noxssh_server.c:1581-1598 | when a session ends, however it ends, everything read from the child has been put into data packets |
| ServerTrace.FailedIsLast | common/noxssh_server.c:1584-1608 | a data packet, exit status or EOF that could not be sent is the last of them, and no CLOSE follows it |
| ServerTrace.InputConserved | common/noxssh_server.c:1544-1550 | while a session runs, data received are the data of the packets passed on to the child, but for the packet in hand |
| ServerTrace.WrittenIsFed | common/noxssh_server.c:1555-1558 | the bytes written to the child are those data exactly when no byte 4 was written, which happens only for an EOF under a terminal |
| ServerTrace.InputWritten | common/noxssh_server.c:1544-1558 | while a session runs, what was received is what was written and the packet in hand, exactly as long as no byte 4 was written |
| ServerTrace.InputComplete | common/noxssh_server.c:1593-1598 | at the exit status, or at the answer to CLOSE, all received data have been written, and nothing else exactly when no byte 4 was |
| ServerTrace.StatusOfDoneChild | common/noxssh_server.c:1591-1596 | an exit status was sent only after the child's output had ended, with nothing read behind that, and after the child was reaped: it is the byte the child exited with, or 128 and the number of the signal that ended it |
| ServerTrace.ExitsOnce | common/noxssh_server.c:1586-1592 | a child is reaped at most once, and how it ended is remembered |
| ServerTrace.CountersDisjoint | common/noxssh_server.c:909-917 | no two packets of a connection, sent or not, share a counter value |
| ServerTrace.BlocksBound | common/noxssh_server.c:881-909 | the blocks of all packets, sent or not, are at most 258 for each of them |
| ServerTrace.BlocksStep | common/noxssh_server.c:881-909 | no packet takes more than 258 blocks, and each moves the count on by its own, whether or not sending it succeeds |
| ServerTrace.WindowConserved | common/noxssh_server.c:1322-1353 | sent bytes and remaining window add up to the granted window, which is never exceeded |
| ServerTrace.LocalWindowConserved | common/noxssh_server.c:1412-1431 | data taken and remaining window add up to what the server has granted, over the whole connection, in sessions and outside |
| ServerTrace.LocalWindowBound | common/noxssh_server.c:1412-1431 | the server's window never exceeds 327680, and an adjustment is due only at 65536 or below |
| ServerTrace.OneDeadline | common/noxssh_server.c:1401-1409 | the deadline is nonzero and never changes once set |
| ServerTrace.ReceivesBeforeDeadline | common/noxssh_server.c:1879-1886 | no receive starts in the drain without a clock reading strictly below the deadline since the receive before |
| ServerTrace.DrainEnds | common/noxssh_server.c:1438-1451 | with a clock that advances from reading to reading, at most 10000 readings are taken once the deadline is set |
| Server.ChunkWhole | common/noxssh_server.c:1332-1338 | a chunk is sent uncut if and only if it fits the read cap, so nothing read is cut or refused |
| ServerRequests.ChunkExactly | common/noxssh_server.c:1322-1338 | output goes out whole if and only if it has at most 4096 bytes and fits the window and the peer's packet size less 64 |
| Server.ClientRequestIsSigned | common/noxssh_server.c:1676-1725 | the client's own request is one the server admits when the callback approves |
| Server.Connection.Send | common/noxssh_server.c:862-932 | one packet, one event; the counter moves on by the packet's blocks whether or not it can be sent; sequence number and bytes only if it is |
| Server.Connection.HandleGlobalRequest | common/noxssh_server.c:1252-1266 | malformed requests fail, wanted replies are sent, others change nothing |
| Server.Connection.HandleServiceRequest | common/noxssh_server.c:1913-1937 | which services become ready, and the exact reply |
| Server.Connection.HandleUserAuthRequest | common/noxssh_server.c:1649-1727 | the user is admitted if and only if the callback approves and the signature over this session verifies; the exact reply in every case |
| Server.Connection.HandleOpen | common/noxssh_server.c:1947-1984 | for a packet that begins with "session", sender, window and packet size, under the conditions: OPEN_CONFIRMATION with sender, 0, 65536, 32768 is sent, and exactly these numbers are stored; nothing is sent for any other packet or under other conditions |
| Server.Connection.MaybeWindowAdjust | common/noxssh_server.c:1412-1431 | the window ends above 65536 and never exceeds 327680; an adjustment is sent exactly when it was not above |
| Server.Connection.DropData | common/noxssh_server.c:2099-2117 | outside a session data for the channel are taken off the window if they fit it, and an adjustment goes out exactly when that leaves at most 65536; it fails exactly on malformed data |
| Server.Connection.HandleChannelEnd | common/noxssh_server.c:1385-1399 | a CLOSE is answered exactly once, while the channel is open; EOF closes nothing |
| Server.Connection.BeginCloseWait | common/noxssh_server.c:1401-1409 | the deadline is set once and later calls keep it |
| Server.Connection.WaitClosePacket | common/noxssh_server.c:1438-1451 | exactly one clock reading is logged, and the drain goes on only if it is below the deadline |
| Server.Connection.WriteChild | common/noxssh_server.c:1464-1478 | on success the child has got exactly the data, however the writes were split |
| Server.Connection.SessionData | common/noxssh_server.c:1544-1550 | data are taken only inside the window and only after being written in full; the session breaks off only on malformed data or data beyond the window, when the child does not take them, or when the adjustment cannot be sent |
| Server.Connection.SessionAdjust | common/noxssh_server.c:1551-1555 | the window grows by the amount if and only if it does not overflow 32 bits |
| Server.Connection.SessionPacket | common/noxssh_server.c:1528-1580 | the session breaks off on a packet only if none can be received, it is one that ends a session, the child does not take its data, or an answer cannot be sent |
| Server.Connection.SessionTurn | common/noxssh_server.c:1518-1599 | a turn breaks off only at the threshold, for a failure around it, or for such a packet |
| Server.Connection.SendDataChunk | common/noxssh_server.c:1322-1353 | what was read under the cap goes out whole, and the window shrinks by its length |
| Server.Connection.SendEnd | common/noxssh_server.c:1593-1598 | for a child that is done, the channel is closed by its exit status, EOF and CLOSE, or a send failed |
| Server.Connection.Finish | common/noxssh_server.c:1590-1599 | the loop goes on only while the child's output has not ended or it has not exited; otherwise the channel is finished with the byte the child exited with, or 128 and its signal, or a send failed |
| Server.Connection.FeedEot | common/noxssh_server.c:1555-1558 | byte 4 goes to a terminal and is recorded, or nothing is written |
| Server.Connection.RunSession | common/noxssh_server.c:1480-1609 | a success is a closed channel behind a done child whose exit code was sent, or behind the peer's CLOSE; at most one send fails, and none in a success |
| Server.Connection.DispatchRequest | common/noxssh_server.c:2006-2097 | a valid exec or shell runs a session that ends as RunSession says, and sets the deadline right behind it; a first valid terminal request is accepted; every other request is refused when a reply is wanted |
| ServerRequests.LaunchesExactly | common/noxssh_server.c:2027-2070 | on any packet: a session starts if and only if it is an exec with a command of at most 512 bytes without NUL, or a shell, with nothing behind |
| ServerRequests.TerminalExactly | common/noxssh_server.c:2007-2024 | a terminal is asked for if and only if the packet is a name of at most 64 bytes without NUL, four sizes and modes, with nothing behind |
| Server.Connection.Dispatch | common/noxssh_server.c:1902-2135 | the loop returns success exactly on DISCONNECT, and keeps what holds between packets |
| Server.Connection.Reply | common/noxssh_server.c:1902-2135 | outside a session a packet ends the connection if and only if it is malformed, asks for what is not there or not yet, or is an authentication request or open that is not due, but for failed sends and clock |
| Server.Connection.TakePacket | common/noxssh_server.c:1890-1901 | each packet received pays for at most one failed send, so failed sends stay below the threshold too |
| Server.Connection.ServeLoop | common/noxssh_server.c:1875-1901 | once the deadline is set, with a clock that advances, the loop returns before turn 10001: every turn takes a reading |
| Server.Connection.ServeOne | common/noxssh_server.c:1862-2138 | every run keeps to the policy; sent bytes stay below the threshold plus five packets; the sequence number is 3 plus the packets sent and never wraps; the counter is the IV moved on by the blocks of all packets, fewer than 2^32 |
| ClientOutput.Client.RecvData | common/noxssh_common.c:2858-2977 | the loop returns the next chunk or the end, as the reading of the packet sequence says, and stores the exit status; it fails only on a packet that makes it give up, without packets, or when the layer below fails |
| ClientOutput.Client.AwaitReply | common/noxssh_common.c:2645-2662 | exec succeeds if and only if the first reply among at most 32 packets is a success, unless the layer below fails |
| ClientOutput.ReplyAtExactly | common/noxssh_common.c:1922-1975 | the reply that ends the wait is the first packet of number 99 or 100, of at most 256 bytes, behind fewer than n others of which none is a KEXINIT |
| ClientOutput.Client.PrintChannelOutput | client/main.c:1706-1761 | what is printed and stored is the reading of the packets taken so far |
| ClientOutput.ReaderInStep | common/noxssh_server.c:1581-1598 | at every moment of every run the client's reading matches the stage of the server's channel |
| ClientOutput.EndToEnd | client/main.c:1706-1761 | what is printed is a prefix of the child's output, and no empty chunk stops the client; behind an EOF the child is done, what is printed is all it ever said, and the stored status is the byte it exited with, or 128 and its signal |
| ClientOutput.CleanCompletion | common/noxssh_common.c:2943-2970 | when the server has sent EOF, a client that reads on has the whole output of a child that is done, and the byte it exited with, or 128 and its signal |
| ServerStream.StreamRuns | common/noxssh_server.c:862-932 | every run of the server can be sent as packets, and sequence number and, if no send failed, counter of the packet layer are those the server counts |
| ServerStream.RunArrives | common/noxssh_common.c:1656-1796 | if no send failed, a receiver in the server's state decodes all its packets, the last of which are those of the session, and ends with its sequence number and counter |
| ExecRun.AcceptedLast | common/noxssh_server.c:2006-2097 | between a request that wants a reply and the session it begins, exactly its acceptance is sent |
| ExecRun.WaitsForSession | common/noxssh_common.c:1922-1975 | the client's wait ends at that acceptance, and the packets behind it are those of the session |
| ExecRun.ExecFromWire | client/main.c:1706-1761 | for every exchange and every server run behind it without failed sends: taking the packets off the wire, waiting for exec's reply and printing gives a beginning of the child's output, and behind the EOF all of it with the byte the child exited with, or 128 and its signal |
| HostPattern.MatchHost | client/main.c:741-764 | the backtracking matcher terminates and returns the declarative meaning: the host can be cut so that every piece fits |
| HostPattern.MatchStar | client/main.c:749-756 | the suffix loop finds a match of the rest if there is one |
| HostPattern.FitsWritten | client/main.c:741-764 | a star fits anything, a question mark one byte, any other byte itself or the other case of its letter |
| HostPattern.CaseFolds | client/main.c:760-762 | letter case never matters, neither in the pattern nor in the host |
| HostPattern.HostListMatches | client/main.c:766-802 | true exactly when some positive pattern of the list matches and no negated one does |
| HostPattern.OrderDoesNotMatter | client/main.c:766-802 | two lists written from the same tokens, in any order and with any repetition, give the same answer for every host |
| HostPattern.TokensOfJoin | client/main.c:778-780 | the scan finds exactly the tokens a list was written from |
| HostPattern.TokensSplit | client/main.c:778-780 | any text splits at any space or tab |
| HostPattern.TokensWithoutBlanks | client/main.c:778-780 | a text without space and tab is one token, or none if it is empty |
| HostPattern.ListWritten | client/main.c:766-802 | a list matches if and only if some token without an exclamation mark matches and none behind one does |
| HostPattern.LongListCut | client/main.c:770-776 | only the first 1023 bytes of a list count |
| Base64.DecodeOfEncode | client/main.c:219-273 | the client's decoder inverts standard padded base64 for every byte string |
| Base64.DigitWritten | client/main.c:195-217 | the alphabet, character by character, and back |
| Base64.ThreeWritten | server/main.c:22-40 | three bytes are four digits of six bits, most significant first |
| Base64.TwoWritten | client/main.c:219-273 | two bytes are three digits and one =, with zero bits behind |
| Base64.OneWritten | client/main.c:219-273 | one byte is two digits and two =, with zero bits behind |
| Base64.EncodeOfDecode | client/main.c:219-273 | a decoded text is the encoding of its bytes if and only if it is canonical |
| Base64.LaxGroup | client/main.c:248-269 | a digit behind padding is accepted and yields a second byte |
| Base64.DecodeText | client/main.c:219-273 | the loop returns the decoded bytes, and fails exactly on invalid text or when the buffer is too small |
| Base64.PrintHostKey | server/main.c:22-40 | the printed text is the standard encoding of the key blob |
| Base64.DecodeBlob | server/auth_posix.c:27-44 | accepts exactly 68 digits that decode to a blob with the Ed25519 prefix, and returns that blob |
| Base64.PrintedKeyAccepted | server/auth_posix.c:27-44 | for every key, the printed text is accepted and gives back the blob, for the client's decoder too |
| Base64.AcceptedIsPrinted | server/auth_posix.c:27-44 | an accepted text is the encoding of the blob inside: no other text passes for that key |

## Left out

- Key re-exchange: the server does not implement it and the client's replaces the session id; only the first exchange is modelled.
- AES, SHA-256, HMAC, X25519, Ed25519 and the RSA signature check are functions of `Cipher.Suite`; that setting up an RSA key can fail is not modelled.
- Wire.ReadString: reads a field whose 32-bit end wraps as a failure, where the code goes on with it; `Wire.CodeAcceptsExactly` says when the two agree.
- Packet.DecodeEncrypted: fails for a packet length of 5 to 11, which no sender produces and for which the code's subtraction would wrap.
- Handshake.ClientMove: the two handshake programs are functions on values, so that their moves can be interleaved; the identification's 254-character limit is assumed of both ends. A receive that has read part of its message is not seen to have: its bytes count as on the stream until it is complete.
- Handshake.WaitFor: gives up at a KEXINIT, where the code starts a second exchange; ClientOutput.Client.AwaitReply likewise, and `recv_data` passes over one.
- FirstExchange.Reaches: the client's combined write of NEWKEYS and the messages behind it is sent as separate packets.
- Server.Connection.Receive: any payload may arrive; that the packets are the client's is the business of the packet layer and of `FirstExchange`.
- Server.Connection.Send: a send may fail at any time, in the transport; that the random generator or the crypto library fails, which leaves the counter where it was, is not modelled.
- Wire.PayloadBuffer.AppendRaw: requires that the 32-bit sum of the lengths does not wrap; on a sum that does, the code's test would let it write behind the buffer, which an array here cannot show. No buffer of the code comes near.
- Wire.PayloadBuffer.AppendString: the same sum.
- Server.Connection.RunSession: fork, exec, PTY, signals, user ids and the passwd lookup; the child is a source and sink of bytes with an exit status, and a turn takes what poll reports. The kill and reap behind a broken session have no effect on the connection.
- Server.Connection.SessionRequest: a window-change request changes only the terminal, which is not modelled.
- Server.Connection.Refuse: an sftp subsystem request is one of the refused kinds; its name is not read.
- Server.Connection.CheckSignature: the allocation of the buffer to verify cannot fail here.
- ServerTrace.DrainEnds: assumes that each reading of the clock is later than the one before; without that the code gives no bound.
- ClientOutput.Client.PrintChannelOutput: keepalives, the timers around them and the rekey timer are left out; waiting for input is a free choice.
- ExecRun.ExecFromWire: what the client sends meanwhile is not modelled: the condition on its position says that it has taken the replies to its earlier requests. It takes all packets before it prints the first output, which the print loop does as they arrive.
- ServerStream.RunArrives: after a failed send the server may go on, but what is on the wire then no longer decodes; nothing is claimed of it.
- ClientOutput.EndToEnd: delivery of whole outputs beyond the first window is not claimed, because this client sends no window adjustments.
- KexInit.Build: the ten appends of the code are one loop over the lists; KeyExchange.BuildHashInput likewise loops over its seven strings.
- PacketLayer.Endpoint.SendPacket: send and packet deadlines are part of a callback that fails.
- HostPattern.Tokens: the tokens of `strtok` on blanks and tabs in the first 1023 bytes; letters fold as in the C locale.
- NETNOX_SSH_KEY_DERIV_MPINT=0, debug output, key dumps and unused functions are not modelled.
- Sockets, the accept loop, file permission checks, known_hosts, configuration files, prompts, argument parsing and Windows code are not modelled.
