/**
 * One node of the network: its name, the port it listens on and the set of
 * `ip:port` keys of the peers it has heard from. `Handle` is one run of
 * `handle_client`; `ConnectToPeers` is one run of `connect_to_peers`.
 */
module Node {
  import opened Wrappers
  import opened Strings
  import opened Protocol

  /** The key a peer is stored under: the observed address and the declared port. */
  function PeerKey(ip: string, port: string): string {
    ip + ":" + port
  }

  /** A key built from a colon-free address and port splits back into exactly those two. */
  lemma PeerKeySplit(ip: string, port: string)
    requires ':' !in ip && ':' !in port
    ensures SplitAll(PeerKey(ip, port)) == [ip, port]
  {
    SplitAllCons(ip, port);
    SplitAllAtom(port);
  }

  /** A key that `connect_to_peers` can take apart into an address and a port. */
  predicate WellFormedKey(key: string) {
    |SplitAll(key)| == 2
  }

  /** Chat text that announces the sender is leaving. */
  predicate IsExit(text: string) {
    Lower(Strip(text)) == "exit"
  }

  /** `exit` spelled with each letter in either case. */
  predicate ExitInAnyCase(m: string) {
    |m| == 4 && (m[0] == 'e' || m[0] == 'E') && (m[1] == 'x' || m[1] == 'X')
    && (m[2] == 'i' || m[2] == 'I') && (m[3] == 't' || m[3] == 'T')
  }

  /**
   * A chat text is an `exit` exactly when, stripped, it is the word `exit`
   * in any mix of cases.
   */
  lemma ExitIgnoresCase(text: string)
    ensures IsExit(text) <==> ExitInAnyCase(Strip(text))
  {
    LowerExit(Strip(text));
  }

  lemma LowerExit(m: string)
    ensures Lower(m) == "exit" <==> ExitInAnyCase(m)
  {
    if ExitInAnyCase(m) {
      var l := Lower(m);
      assert l[0] == 'e' && l[1] == 'x' && l[2] == 'i' && l[3] == 't';
    }
    if Lower(m) == "exit" {
      var l := Lower(m);
      assert l[0] == 'e' && l[1] == 'x' && l[2] == 'i' && l[3] == 't';
    }
  }

  /** The peer set after `handle_client` has processed frame `f` received from `ip`. */
  function NextPeers(peers: set<string>, f: Frame, ip: string): set<string> {
    match f
    case Connect(_, port) => peers + {PeerKey(ip, port)}
    case Message(_, port, text) =>
      if IsExit(text) then peers - {PeerKey(ip, port)} else peers + {PeerKey(ip, port)}
    case _ => peers
  }

  /** What `handle_client` sends back on the same connection, if anything. */
  function Reply(f: Frame, name: string, myPort: string): Option<string> {
    match f
    case Connect(_, _) => Some(AckFrame(name, myPort))
    case Query => Some(ResponseFrame(name, myPort))
    case _ => None
  }

  /**
   * A CONNECT frame with at least three fields adds exactly the requester's
   * key, built from its observed address and declared port, and is
   * acknowledged with this node's name and port.
   */
  lemma ConnectAccepted(peers: set<string>, raw: string, ip: string, name: string, myPort: string)
    requires StartsWith(Strip(raw), "CONNECT:") && Colons(Strip(raw)) >= 2
    ensures Decode(raw).Connect? && ':' !in Decode(raw).port
    ensures NextPeers(peers, Decode(raw), ip) == peers + {PeerKey(ip, Decode(raw).port)}
    ensures Reply(Decode(raw), name, myPort) == Some(AckFrame(name, myPort))
  {
    ConnectEffect(peers, Decode(raw), ip, name, myPort);
  }

  lemma ConnectEffect(peers: set<string>, f: Frame, ip: string, name: string, myPort: string)
    requires f.Connect?
    ensures NextPeers(peers, f, ip) == peers + {PeerKey(ip, f.port)}
    ensures Reply(f, name, myPort) == Some(AckFrame(name, myPort))
  {
  }

  /**
   * An empty frame, a CONNECT with fewer than three fields, a MESSAGE
   * with fewer than four and a frame with none of the three tags leave the
   * peers alone and get no reply; a QUERY leaves them alone and is answered
   * with a RESPONSE frame.
   */
  lemma FramesWithoutEffect(peers: set<string>, raw: string, ip: string, name: string, myPort: string)
    ensures var m := Strip(raw);
      m == [] || (StartsWith(m, "CONNECT:") && Colons(m) < 2) || (StartsWith(m, "MESSAGE:") && Colons(m) < 3) ==>
        NextPeers(peers, Decode(raw), ip) == peers && Reply(Decode(raw), name, myPort) == None
    ensures StartsWith(Strip(raw), "QUERY") ==>
      NextPeers(peers, Decode(raw), ip) == peers && Reply(Decode(raw), name, myPort) == Some(ResponseFrame(name, myPort))
    ensures var m := Strip(raw);
      m != [] && !StartsWith(m, "CONNECT:") && !StartsWith(m, "QUERY") && !StartsWith(m, "MESSAGE:") ==>
        Decode(raw) == Unknown && NextPeers(peers, Decode(raw), ip) == peers && Reply(Decode(raw), name, myPort) == None
  {
  }

  /**
   * Only the sender's own key can change: every other key is in the new set
   * exactly when it was in the old one.
   */
  lemma OnlySenderChanges(peers: set<string>, f: Frame, ip: string, key: string)
    requires (f.Connect? || f.Message?) ==> key != PeerKey(ip, f.port)
    ensures key in NextPeers(peers, f, ip) <==> key in peers
  {
  }

  /** Delivering the same frame twice from the same address changes nothing the second time. */
  lemma NextPeersIdempotent(peers: set<string>, f: Frame, ip: string)
    ensures NextPeers(NextPeers(peers, f, ip), f, ip) == NextPeers(peers, f, ip)
  {
  }

  /**
   * Receiving frames from an address without ':' keeps every key
   * well formed, since the port of a decoded frame is colon-free.
   */
  lemma NextPeersWellFormed(peers: set<string>, f: Frame, ip: string)
    requires ':' !in ip
    requires forall k :: k in peers ==> WellFormedKey(k)
    requires f.Connect? || f.Message? ==> ':' !in f.port
    ensures forall k :: k in NextPeers(peers, f, ip) ==> WellFormedKey(k)
  {
    if f.Connect? || f.Message? {
      PeerKeySplit(ip, f.port);
    }
  }

  /**
   * The handshake of `connect_to_peers` against a node that runs
   * `handle_client`: the acceptor records the initiator under its address
   * and declared port, and the initiator reads the acceptor's name from the
   * reply.
   */
  lemma HandshakeCompletes(peers: set<string>, ip: string,
                           initiator: string, initiatorPort: string,
                           acceptor: string, acceptorPort: string)
    requires ':' !in initiator && ':' !in initiatorPort && ':' !in acceptor
    requires NoTrailingSpace(initiatorPort)
    ensures var f := Decode(ConnectFrame(initiator, initiatorPort));
      PeerKey(ip, initiatorPort) in NextPeers(peers, f, ip) &&
      Reply(f, acceptor, acceptorPort).Some? &&
      Acknowledgment(Reply(f, acceptor, acceptorPort).value) == Accepted(acceptor)
  {
    ConnectRoundTrip(initiator, initiatorPort, []);
    assert ConnectFrame(initiator, initiatorPort) + [] == ConnectFrame(initiator, initiatorPort);
    AckRoundTrip(acceptor, acceptorPort);
  }

  /** A chat frame keeps its sender, or forgets it when the text is `exit`; no other key changes. */
  lemma ChatUpdatesSender(peers: set<string>, ip: string, f: Frame)
    requires f.Message?
    ensures var next := NextPeers(peers, f, ip);
      (PeerKey(ip, f.port) in next <==> !IsExit(f.text)) &&
      next - {PeerKey(ip, f.port)} == peers - {PeerKey(ip, f.port)}
  {
  }

  /** A chat message sent by `send_message` keeps its sender; its `exit` message removes it. */
  lemma MessageKeepsOrRemovesSender(peers: set<string>, ip: string,
                                    sender: string, port: string, text: string)
    requires ':' !in sender && ':' !in port && NoTrailingSpace(text)
    ensures var next := NextPeers(peers, Decode(MessageFrame(sender, port, text)), ip);
      (PeerKey(ip, port) in next <==> !IsExit(text)) &&
      next - {PeerKey(ip, port)} == peers - {PeerKey(ip, port)}
  {
    MessageRoundTrip(sender, port, text);
    ChatUpdatesSender(peers, ip, Message(sender, port, text));
  }

  /**
   * A name containing ':' shifts the fields of its CONNECT frame: the part
   * of the name after the ':' is taken for the port, and the real port is ignored.
   */
  lemma ColonInNameShiftsPort(a: string, b: string, port: string)
    requires ':' !in a && ':' !in b && NoTrailingSpace(port)
    ensures Decode(ConnectFrame(a + ":" + b, port)) == Connect(a, b)
  {
    ShiftedFrame(a, b, port);
    ConnectRoundTrip(a, b, ":" + port);
  }

  lemma ShiftedFrame(a: string, b: string, port: string)
    requires NoTrailingSpace(port)
    ensures ConnectFrame(a + ":" + b, port) == ConnectFrame(a, b) + (":" + port)
    ensures NoTrailingSpace(b + (":" + port))
  {
    var t := b + (":" + port);
    assert t[|t| - 1] == if port == [] then ':' else port[|port| - 1];
  }

  /** One handshake attempt of `connect_to_peers`. */
  datatype Attempt = Attempt(peer: string, ip: string, port: string, sent: string, outcome: Handshake)

  /** The peers some attempt was made to. */
  function Attempted(attempts: seq<Attempt>): set<string> {
    if attempts == [] then {} else Attempted(attempts[..|attempts| - 1]) + {attempts[|attempts| - 1].peer}
  }

  /** A peer was attempted exactly when some attempt went to it. */
  lemma {:induction false} AttemptedMembers(attempts: seq<Attempt>, k: string)
    ensures k in Attempted(attempts) <==> exists i :: 0 <= i < |attempts| && attempts[i].peer == k
  {
    if attempts != [] {
      var last := |attempts| - 1;
      AttemptedMembers(attempts[..last], k);
      if k in Attempted(attempts[..last]) {
        var i :| 0 <= i < last && attempts[..last][i].peer == k;
        assert attempts[i].peer == k;
      }
    }
  }

  lemma AttemptedSnoc(attempts: seq<Attempt>, a: Attempt)
    ensures Attempted(attempts + [a]) == Attempted(attempts) + {a.peer}
  {
    assert (attempts + [a])[..|attempts|] == attempts;
  }

  /** How the handshake with `peer` ends, given what each reachable peer answers. */
  function Outcome(peer: string, replies: map<string, string>): Handshake {
    if peer in replies then Acknowledgment(replies[peer]) else Failed
  }

  /**
   * An attempt as `connect_to_peers` makes it: the key taken apart into
   * address and port, this node's CONNECT frame sent, the reply judged.
   */
  predicate MadeBy(a: Attempt, name: string, myPort: string, replies: map<string, string>) {
    SplitAll(a.peer) == [a.ip, a.port] &&
    a.sent == ConnectFrame(name, myPort) &&
    a.outcome == Outcome(a.peer, replies)
  }

  /** No peer is contacted twice. */
  predicate Distinct(attempts: seq<Attempt>) {
    forall i, j :: 0 <= i < j < |attempts| ==> attempts[i].peer != attempts[j].peer
  }

  /** Every attempt went to a known peer and was made as `connect_to_peers` makes it. */
  predicate AllMadeBy(attempts: seq<Attempt>, peers: set<string>,
                      name: string, myPort: string, replies: map<string, string>) {
    forall i :: 0 <= i < |attempts| ==> attempts[i].peer in peers && MadeBy(attempts[i], name, myPort, replies)
  }

  /** Appending an attempt to a peer not yet contacted keeps the attempts distinct and well made. */
  lemma AppendAttempt(attempts: seq<Attempt>, a: Attempt, peers: set<string>,
                      name: string, myPort: string, replies: map<string, string>)
    requires Distinct(attempts) && a.peer !in Attempted(attempts)
    requires AllMadeBy(attempts, peers, name, myPort, replies)
    requires a.peer in peers && MadeBy(a, name, myPort, replies)
    ensures Distinct(attempts + [a])
    ensures AllMadeBy(attempts + [a], peers, name, myPort, replies)
    ensures Attempted(attempts + [a]) == Attempted(attempts) + {a.peer}
  {
    AttemptedSnoc(attempts, a);
    AppendDistinct(attempts, a);
    AppendMadeBy(attempts, a, peers, name, myPort, replies);
  }

  lemma AppendDistinct(attempts: seq<Attempt>, a: Attempt)
    requires Distinct(attempts) && a.peer !in Attempted(attempts)
    ensures Distinct(attempts + [a])
  {
    var next := attempts + [a];
    forall i | 0 <= i < |attempts|
      ensures next[i] == attempts[i] && attempts[i].peer != a.peer
    {
      AttemptedMembers(attempts, a.peer);
    }
  }

  lemma AppendMadeBy(attempts: seq<Attempt>, a: Attempt, peers: set<string>,
                     name: string, myPort: string, replies: map<string, string>)
    requires AllMadeBy(attempts, peers, name, myPort, replies)
    requires a.peer in peers && MadeBy(a, name, myPort, replies)
    ensures AllMadeBy(attempts + [a], peers, name, myPort, replies)
  {
    var next := attempts + [a];
    assert forall i :: 0 <= i < |attempts| ==> next[i] == attempts[i];
    assert next[|attempts|] == a;
  }

  /** Distinct attempts reach as many peers as there are attempts. */
  lemma {:induction false} DistinctCount(attempts: seq<Attempt>)
    requires Distinct(attempts)
    ensures |Attempted(attempts)| == |attempts|
  {
    if attempts != [] {
      var last := |attempts| - 1;
      var init := attempts[..last];
      assert Distinct(init);
      DistinctCount(init);
      AttemptedMembers(init, attempts[last].peer);
    }
  }

  /** Every peer an attempt was made to had a key that splits into address and port. */
  lemma AttemptedWellFormed(attempts: seq<Attempt>, peers: set<string>,
                            name: string, myPort: string, replies: map<string, string>)
    requires AllMadeBy(attempts, peers, name, myPort, replies)
    ensures forall k :: k in Attempted(attempts) ==> WellFormedKey(k)
  {
    forall k | k in Attempted(attempts)
      ensures WellFormedKey(k)
    {
      AttemptedMembers(attempts, k);
      var i :| 0 <= i < |attempts| && attempts[i].peer == k;
      assert MadeBy(attempts[i], name, myPort, replies);
    }
  }

  /**
   * What the loop of `connect_to_peers` has done so far: every peer not
   * `remaining` was contacted exactly once, as the loop body does it.
   */
  predicate Progress(attempts: seq<Attempt>, remaining: set<string>, peers: set<string>,
                     name: string, myPort: string, replies: map<string, string>) {
    remaining <= peers &&
    Attempted(attempts) == peers - remaining &&
    Distinct(attempts) &&
    AllMadeBy(attempts, peers, name, myPort, replies)
  }

  lemma ProgressStep(attempts: seq<Attempt>, a: Attempt, remaining: set<string>, peers: set<string>,
                     name: string, myPort: string, replies: map<string, string>)
    requires Progress(attempts, remaining, peers, name, myPort, replies)
    requires a.peer in remaining && MadeBy(a, name, myPort, replies)
    ensures Progress(attempts + [a], remaining - {a.peer}, peers, name, myPort, replies)
  {
    AppendAttempt(attempts, a, peers, name, myPort, replies);
  }

  /** Once no peer remains, each known peer was contacted once and every key splits in two. */
  lemma ProgressDone(attempts: seq<Attempt>, peers: set<string>,
                     name: string, myPort: string, replies: map<string, string>)
    requires Progress(attempts, {}, peers, name, myPort, replies)
    ensures Attempted(attempts) == peers && |attempts| == |peers|
    ensures forall k :: k in peers ==> WellFormedKey(k)
  {
    assert peers - {} == peers;
    AttemptedWellFormed(attempts, peers, name, myPort, replies);
    DistinctCount(attempts);
  }

  /**
   * One pass of the loop body of `connect_to_peers`: `None` when the key
   * does not split into exactly an address and a port, which raises.
   */
  function Contact(peer: string, name: string, myPort: string, replies: map<string, string>): (r: Option<Attempt>)
    ensures r.None? <==> !WellFormedKey(peer)
    ensures r.Some? ==> r.value.peer == peer && MadeBy(r.value, name, myPort, replies)
  {
    var fields := SplitAll(peer);
    if |fields| != 2 then None
    else
      assert fields == [fields[0], fields[1]];
      Some(Attempt(peer, fields[0], fields[1], ConnectFrame(name, myPort), Outcome(peer, replies)))
  }

  class Node {
    const name: string
    const myPort: string
    var peers: set<string>

    /** Every known key splits into an address and a port. */
    ghost predicate Valid()
      reads this
    {
      forall k :: k in peers ==> WellFormedKey(k)
    }

    constructor(name: string, myPort: string)
      ensures this.name == name && this.myPort == myPort
      ensures peers == {}
      ensures Valid()
    {
      this.name := name;
      this.myPort := myPort;
      peers := {};
    }

    /**
     * Processes one received string from address `ip`: strips it, tests the
     * tags in order, updates the peer set and returns the reply to send.
     */
    method Handle(raw: string, ip: string) returns (reply: Option<string>)
      modifies this
      ensures peers == NextPeers(old(peers), Decode(raw), ip)
      ensures reply == Reply(Decode(raw), name, myPort)
      ensures old(Valid()) && ':' !in ip ==> Valid()
    {
      var message := Strip(raw);
      DecodeSteps(raw);
      if message == [] {
        reply := None;
      } else if StartsWith(message, "CONNECT:") {
        reply := HandleConnect(message, ip);
      } else if StartsWith(message, "QUERY") {
        reply := Some(ResponseFrame(name, myPort));
      } else if StartsWith(message, "MESSAGE:") {
        reply := HandleMessage(message, ip);
      } else {
        reply := None;
      }
      if old(Valid()) && ':' !in ip {
        NextPeersWellFormed(old(peers), Decode(raw), ip);
      }
    }

    /** The CONNECT branch of `handle_client`: record the requester and acknowledge. */
    method HandleConnect(message: string, ip: string) returns (reply: Option<string>)
      requires StartsWith(message, "CONNECT:")
      modifies this
      ensures peers == NextPeers(old(peers), DecodeConnect(message), ip)
      ensures reply == Reply(DecodeConnect(message), name, myPort)
    {
      var parts := SplitAll(message);
      if |parts| >= 3 {
        var peerPort := parts[2];
        peers := peers + {PeerKey(ip, peerPort)};
        reply := Some(AckFrame(name, myPort));
      } else {
        reply := None;
      }
    }

    /** The MESSAGE branch of `handle_client`: keep the sender, or drop it on `exit`. */
    method HandleMessage(message: string, ip: string) returns (reply: Option<string>)
      requires StartsWith(message, "MESSAGE:")
      modifies this
      ensures peers == NextPeers(old(peers), DecodeMessage(message), ip)
      ensures reply == None
    {
      var parts := SplitAtMost(message, 3);
      if |parts| >= 4 {
        assert DecodeMessage(message) == Message(parts[1], parts[2], parts[3]);
        RecordChat(parts[1], parts[2], parts[3], ip);
      } else {
        assert DecodeMessage(message) == MalformedMessage;
      }
      reply := None;
    }

    /** A well-formed chat message: an `exit` text forgets the sender, any other text records it. */
    method RecordChat(sender: string, senderPort: string, text: string, ip: string)
      modifies this
      ensures peers == NextPeers(old(peers), Message(sender, senderPort, text), ip)
    {
      if IsExit(text) {
        peers := peers - {PeerKey(ip, senderPort)};
      } else {
        peers := peers + {PeerKey(ip, senderPort)};
      }
    }

    /**
     * Sends a CONNECT frame to every known peer, one at a time, in any order.
     * `replies` stands for the network: it maps a key to what that peer
     * answers, and a key it lacks is a peer that cannot be reached.
     * Splitting a key that is not `ip:port` raises outside the per-peer
     * error handling, which ends the whole round (`crashed`).
     */
    method ConnectToPeers(replies: map<string, string>) returns (attempts: seq<Attempt>, crashed: bool)
      ensures !crashed <==> Valid()
      ensures !crashed ==> Attempted(attempts) == peers && |attempts| == |peers|
      ensures Distinct(attempts)
      ensures AllMadeBy(attempts, peers, name, myPort, replies)
    {
      var remaining := peers;
      attempts := [];
      crashed := false;
      while remaining != {}
        invariant Progress(attempts, remaining, peers, name, myPort, replies)
        decreases |remaining|
      {
        var peer :| peer in remaining;
        var attempt := Contact(peer, name, myPort, replies);
        if attempt.None? {
          crashed := true;
          return;
        }
        ProgressStep(attempts, attempt.value, remaining, peers, name, myPort, replies);
        attempts := attempts + [attempt.value];
        remaining := remaining - {peer};
      }
      ProgressDone(attempts, peers, name, myPort, replies);
    }
  }
}
