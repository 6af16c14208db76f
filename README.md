# BlockMiners P2P node: frame protocol and peer set

This project models the message protocol of the BlockMiners peer-to-peer
chat node (`main.py`) and proves properties of it. Nodes talk in
colon-delimited text frames:

- `CONNECT:<name>:<port>`
- `ACK:<name>:<port>`
- `QUERY`, answered by `RESPONSE:<name>:<port>`
- `MESSAGE:<name>:<port>:<text>`

Each node keeps a set of `ip:port` keys for the peers it has heard from.

The model has four files:

- `strings.dfy` (module `Strings`) models the Python string operations the
  protocol is built from:
  - `strip()`, with Python's full set of whitespace characters;
  - `lower()`;
  - `startswith`;
  - `split(":")`;
  - `split(":", n)`, with joining on `:` as its inverse.
- `protocol.dfy` (module `Protocol`) models the frames:
  - how `handle_client` classifies and splits a received string (`Decode`);
  - the four frame builders;
  - the acknowledgment test of `connect_to_peers` (`Acknowledgment`);
  - round trips: the CONNECT and MESSAGE builders through `Decode`, and the
    ACK builder through `Acknowledgment`. Nothing in `main.py` parses a
    RESPONSE frame; the model proves only that `Acknowledgment` does not
    take one for an `ACK`.
- `node.dfy` (module `Node`) holds the class `Node`, which has the node's
  name, its port and the peer set. It provides:
  - `Handle`: one run of `handle_client`. It updates the set in place and
    returns the reply to send.
  - `ConnectToPeers`: one run of `connect_to_peers`. It loops over a
    snapshot of the set and only reads it.

  `Handle` is proved against the specification functions `Decode`,
  `NextPeers` and `Reply`. `ConnectToPeers` is proved against `MadeBy`, which
  is what `Contact` ensures for one pass of the loop body, with the outcome
  given by `Outcome` and `Acknowledgment`, and against the invariant `Valid`. Its loop
  invariant `Progress` combines `Attempted`, `Distinct` and `AllMadeBy`.
  Lemmas state what these functions promise.
- `wrappers.dfy` holds the `Option` type used for replies.

What the code does, and the model with it:

- A `QUERY` is answered with `RESPONSE:<name>:<port>` and not with a peer list.
- There is a single peer set and no separate registry of connected peers.
- The initiator of a handshake does not record the acceptor; it only reads
  the acceptor's name from the `ACK`.
- Each connection carries exactly one frame.

An observed address never contains `:`, because the listener is IPv4-only.
Every key the node stores therefore splits into exactly an address and a
port. This is the invariant `Node.Valid`. It is why the unguarded
`peer.split(":")` in `connect_to_peers` never raises. `ConnectToPeers`
models the path where it would raise (`crashed`) and proves that it is taken
exactly when the invariant fails.

## Model

| member | source | states |
|---|---|---|
| Strings.IsSpace | main.py:34 | the characters `strip()` removes: Python's whitespace set, namely code points 9-13, 28-32, 0x85, 0xA0, 0x1680, 0x2000-0x200A, 0x2028, 0x2029, 0x202F, 0x205F and 0x3000 |
| Strings.TrimLeft | main.py:34 | the result is a suffix of the input, everything removed is whitespace, and the result does not start with whitespace |
| Strings.TrimRight | main.py:34 | the result is a prefix of the input, everything removed is whitespace, and the result does not end with whitespace |
| Strings.Strip | main.py:34 | `strip()` returns a slice of the input with no whitespace at either end, and everything it cut off on either side is whitespace |
| Strings.StripNoop | main.py:34 | a string with no whitespace at either end is left unchanged by `strip()` |
| Strings.StripKeepsThrough | main.py:116 | stripping a string that starts with a non-space character loses only trailing whitespace, never a character before a later non-space one |
| Strings.Lower | main.py:62 | `lower()` keeps the length, leaves no upper-case ASCII letter, and changes a character only by turning an upper-case letter into its lower-case one |
| Strings.StartsWith | main.py:39 | `s.startswith(prefix)`: the prefix is no longer than `s` and equals its first characters |
| Strings.FindColon | main.py:40 | the index found is the first `:`, or the length when there is none |
| Strings.ColonsFromFirst | main.py:40 | the colon count is one more than the count after the first colon, or zero when there is no colon |
| Strings.ColonsAppend | main.py:40 | colon counts add up over concatenation |
| Strings.SplitAll | main.py:40 | `split(":")` gives one more field than there are colons, every field is colon-free, and the fields joined on `:` give the input back |
| Strings.SplitAtMost | main.py:57 | `split(":", n)` gives min(colons, n) + 1 fields; all fields but the last are colon-free (the last too when fewer than n+1 fields), and they join back to the input |
| Strings.SplitAllJoin | main.py:40 | splitting a join of colon-free fields gives the same fields back |
| Strings.SplitAtMostJoin | main.py:57 | splitting at most n times a join of n+1 fields whose first n are colon-free gives the same fields back, whatever the last field contains |
| Strings.SplitAllCons | main.py:40 | splitting peels off the colon-free field in front of the first `:` |
| Protocol.ConnectFrame | main.py:114 | the frame `CONNECT:<name>:<port>` that `connect_to_peers` sends |
| Protocol.AckFrame | main.py:46 | the frame `ACK:<name>:<port>` that `handle_client` answers a CONNECT with |
| Protocol.ResponseFrame | main.py:51 | the frame `RESPONSE:<name>:<port>` that `handle_client` answers a QUERY with |
| Protocol.MessageFrame | main.py:84 | the frame `MESSAGE:<name>:<port>:<text>` that `send_message` sends |
| Protocol.Decode | main.py:34-71 | after stripping, the frame is empty, CONNECT (tag and at least 2 colons), short CONNECT (fewer), QUERY (prefix `QUERY`), MESSAGE (tag and at least 3 colons), malformed MESSAGE (fewer) or unknown, each exactly when its condition holds; the name and port of CONNECT and MESSAGE are colon-free, a MESSAGE rebuilds the stripped input, and the stripped input of a CONNECT is the CONNECT frame of its name and port followed by nothing or by further `:`-fields |
| Protocol.DecodeConnect | main.py:39-42 | a `CONNECT:` frame yields name and port exactly when it has at least 3 fields; the frame is then the CONNECT frame of that name and port, followed by nothing or by further `:`-fields that are ignored |
| Protocol.DecodeMessage | main.py:55-61 | a `MESSAGE:` frame is well formed exactly when it has at least 3 colons, and then it is the MESSAGE frame of its name, port and text |
| Protocol.TagsExclusive | main.py:39-55 | no stripped string carries two of the tags `CONNECT:`, `QUERY`, `MESSAGE:` |
| Protocol.MessageRoundTrip | main.py:84 | a frame built by `send_message` from a colon-free name and port decodes to the same name, port and text, colons in the text included, provided the text has no trailing whitespace |
| Protocol.MessageFrameSplit | main.py:57 | splitting a built MESSAGE frame at most three times gives back tag, name, port and text |
| Protocol.ConnectRoundTrip | main.py:114 | a frame built by `connect_to_peers` decodes to the same name and port, also when further `:`-fields follow |
| Protocol.ConnectWithoutPort | main.py:39-41 | `CONNECT:<name>` without a port is a short CONNECT |
| Protocol.MessageWithoutText | main.py:55-59 | `MESSAGE:<name>:<port>` without a text is malformed |
| Protocol.Acknowledgment | main.py:116-122 | a reply is accepted exactly when its stripped form starts with `ACK:`; the acceptor name is then the colon-free field right after the tag, followed by nothing or by a `:`; the guard on the number of fields can never fail |
| Protocol.AckNoPort | main.py:116-120 | a reply `ACK:<name>` with no port field is still accepted, with that name |
| Protocol.ResponseIsNoAck | main.py:51 | a RESPONSE frame sent back to a CONNECT is not an acknowledgment (main.py:117 rejects it) |
| Protocol.AckTagSplits | main.py:118-119 | a string tagged `ACK:` always splits into at least two fields |
| Protocol.AckRoundTrip | main.py:46 | the `ACK` frame an acceptor builds is accepted, with the acceptor's own name |
| Node.PeerKey | main.py:45 | the key a peer is stored under: the observed address, `:`, and the declared port |
| Node.IsExit | main.py:62 | a chat text announces leaving when, stripped and lower-cased, it is `exit` |
| Node.NextPeers | main.py:34-71 | CONNECT adds `ip:port`; MESSAGE removes it when the text is `exit` and adds it otherwise; every other frame leaves the set as it was |
| Node.Reply | main.py:46-51 | CONNECT is answered with `ACK:<name>:<my_port>`, QUERY with `RESPONSE:<name>:<my_port>`, and every other frame with nothing |
| Node.PeerKeySplit | main.py:109 | a key built from a colon-free address and port splits back into exactly that address and port |
| Node.ConnectAccepted | main.py:39-47 | a CONNECT with at least three fields adds exactly `<observed ip>:<declared port>` to the peers and is answered with `ACK:<name>:<my_port>` |
| Node.FramesWithoutEffect | main.py:34-71 | empty frames, short CONNECTs, malformed MESSAGEs and frames with none of the three tags change no peer and get no reply; a QUERY changes no peer and is answered with `RESPONSE:<name>:<my_port>` |
| Node.ChatUpdatesSender | main.py:62-69 | a chat frame removes the sender's key when its text, stripped and lower-cased, is `exit`, and adds it otherwise; no other key changes |
| Node.MessageKeepsOrRemovesSender | main.py:84 | a frame sent by `send_message` keeps its sender in the receiver's peers exactly when its text is not `exit`, and touches no other key |
| Node.OnlySenderChanges | main.py:45 | a frame can only change the key built from the sender's address and declared port |
| Node.NextPeersIdempotent | main.py:65 | receiving the same frame twice from the same address has the effect of receiving it once |
| Node.NextPeersWellFormed | main.py:45 | from an address without `:`, every frame keeps every stored key splittable into address and port |
| Node.HandshakeCompletes | main.py:114-120 | a CONNECT built by the initiator makes the acceptor record `<initiator ip>:<initiator port>` and reply with an `ACK` that the initiator accepts with the acceptor's name |
| Node.ColonInNameShiftsPort | main.py:40-42 | for any name `a:b` with colon-free parts and any port without trailing whitespace, the CONNECT fields shift: `a` is taken as the name, `b` as the port, and the real port is ignored |
| Node.ExitIgnoresCase | main.py:62 | a chat text counts as `exit` exactly when, stripped, it is the four letters of `exit` with each letter in either case |
| Node.Contact | main.py:108-125 | apart from the `int()` crash listed under Left out, the loop body raises exactly for a key that does not split into address and port; otherwise it sends this node's CONNECT frame to that address and judges the reply with the acknowledgment rule, or records a failure when the peer cannot be reached |
| Node.AttemptedMembers | main.py:108 | a peer is among those attempted exactly when some attempt went to it |
| Node.DistinctCount | main.py:103 | attempts to pairwise distinct peers reach as many peers as there are attempts |
| Node.ProgressStep | main.py:108-125 | one more loop pass keeps "every peer not remaining was contacted exactly once, as the loop body does it" |
| Node.ProgressDone | main.py:108 | when no peer remains, every known peer was contacted once and every key splits in two |
| Node.Node.constructor | main.py:6 | a node starts with no peers, which satisfies the invariant |
| Node.Node.Handle | main.py:31-76 | the new peer set is the one `NextPeers` gives for the decoded frame, the reply is the one `Reply` gives, and the invariant is kept when the observed address has no `:` |
| Node.Node.HandleConnect | main.py:39-47 | the CONNECT branch adds the requester's key and replies `ACK` exactly for CONNECT frames with at least 3 fields |
| Node.Node.HandleMessage | main.py:55-69 | the MESSAGE branch updates the sender's key for well-formed frames and leaves the peers alone for malformed ones; it never replies |
| Node.Node.RecordChat | main.py:62-69 | an `exit` text discards the sender's key and any other text adds it |
| Node.Node.ConnectToPeers | main.py:100-125 | the set is only read; the round raises exactly when some key does not split in two; otherwise every known peer is contacted exactly once, with this node's CONNECT frame, at the address and port its key splits into, and with the outcome the acknowledgment rule gives |

## Left out

- Sockets: binding, listening, accepting, connecting, `recv(1024)` and closing. A received frame is a whole string and a reply is an optional string. The 1024-byte truncation of `recv` is not modelled.
- In `ConnectToPeers`, the network is the parameter `replies`. A peer that is missing from it stands for any failure in connecting, sending or receiving.
- UTF-8 encoding and decoding: frames are Dafny strings.
- Threads and the lock around the peer set: each `Handle` is one atomic step on the set.
- `start_server`, the `main` menu, `query_peers` and every `print`. They are I/O and user interface with no protocol logic.
- `int()` conversion of ports: ports stay the strings that appear in the frames. So the model misses one crash. `handle_client` stores any declared port without checking it; for instance, `CONNECT:x:abc` from address `ip` stores the well-formed key `ip:abc`. In `connect_to_peers`, `int()` rejects such a port (main.py:111). When no earlier port in the same round converted, the `except` at main.py:124-125 reads the unassigned `port`. That raises `UnboundLocalError`, which ends the round, and, since `main` catches nothing, the process. When an earlier port did convert, the round only reports a failure for this peer (with the earlier port in the message) and goes on.
- Node.Contact and Node.Node.ConnectToPeers: "raises exactly when some key does not split in two" holds only because ports are kept as strings. The crash above is not modelled. A peer whose port `int()` rejects should be missing from `replies`, which records a failure for it; the contract does not force that.
- Strings.Lower: lower-cases ASCII letters only, while Python's `lower()` also lower-cases other scripts. The only use is the `exit` test, whose outcome this does not change.
- Node.Node.Handle: the reply is returned rather than sent. A failed send after the peer set was updated still leaves the update in place, as in the source.
- The iteration order of the `peers` snapshot is not modelled: `ConnectToPeers` may pick the peers in any order.
