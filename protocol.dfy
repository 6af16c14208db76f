/**
 * The node's colon-delimited text frames: how a received frame is
 * classified and split into fields (`handle_client`), the frames the node
 * builds (`ACK`, `RESPONSE`, `MESSAGE`, `CONNECT`) and how an
 * acknowledgment is recognised (`connect_to_peers`).
 */
module Protocol {
  import opened Strings

  /** What `handle_client` makes of one received string. */
  datatype Frame =
    | Empty                                               // nothing left after stripping
    | Connect(name: string, port: string)                 // `CONNECT:` with at least three fields
    | ShortConnect                                        // `CONNECT:` with fewer than three fields
    | Query                                               // anything starting with `QUERY`
    | Message(name: string, port: string, text: string)   // `MESSAGE:` with all four fields
    | MalformedMessage                                    // `MESSAGE:` with fewer than four fields
    | Unknown                                             // any other tag

  function ConnectFrame(name: string, port: string): string {
    "CONNECT:" + name + ":" + port
  }

  function AckFrame(name: string, port: string): string {
    "ACK:" + name + ":" + port
  }

  function ResponseFrame(name: string, port: string): string {
    "RESPONSE:" + name + ":" + port
  }

  function MessageFrame(name: string, port: string, text: string): string {
    "MESSAGE:" + name + ":" + port + ":" + text
  }

  /**
   * Classifies a received string the way `handle_client` does: strip it,
   * then test the tags in order.
   */
  function Decode(raw: string): (f: Frame)
    ensures f.Empty? <==> Strip(raw) == []
    ensures f.Connect? <==> StartsWith(Strip(raw), "CONNECT:") && Colons(Strip(raw)) >= 2
    ensures f.ShortConnect? <==> StartsWith(Strip(raw), "CONNECT:") && Colons(Strip(raw)) < 2
    ensures f.Query? <==> StartsWith(Strip(raw), "QUERY")
    ensures f.Message? <==> StartsWith(Strip(raw), "MESSAGE:") && Colons(Strip(raw)) >= 3
    ensures f.MalformedMessage? <==> StartsWith(Strip(raw), "MESSAGE:") && Colons(Strip(raw)) < 3
    ensures f.Connect? ==> ':' !in f.name && ':' !in f.port
    ensures f.Message? ==> ':' !in f.name && ':' !in f.port
    ensures f.Message? ==> Strip(raw) == MessageFrame(f.name, f.port, f.text)
    ensures f.Connect? ==>
      exists rest :: Strip(raw) == ConnectFrame(f.name, f.port) + rest && (rest == [] || rest[0] == ':')
  {
    var m := Strip(raw);
    TagsExclusive(m);
    if m == [] then Empty
    else if StartsWith(m, "CONNECT:") then DecodeConnect(m)
    else if StartsWith(m, "QUERY") then Query
    else if StartsWith(m, "MESSAGE:") then DecodeMessage(m)
    else Unknown
  }

  /** `Decode` unfolded one tag at a time. */
  lemma DecodeSteps(raw: string)
    ensures Strip(raw) == [] ==> Decode(raw) == Empty
    ensures var m := Strip(raw);
      m != [] && StartsWith(m, "CONNECT:") ==> Decode(raw) == DecodeConnect(m)
    ensures var m := Strip(raw);
      m != [] && !StartsWith(m, "CONNECT:") && StartsWith(m, "QUERY") ==> Decode(raw) == Query
    ensures var m := Strip(raw);
      m != [] && !StartsWith(m, "CONNECT:") && !StartsWith(m, "QUERY") && StartsWith(m, "MESSAGE:") ==>
        Decode(raw) == DecodeMessage(m)
    ensures var m := Strip(raw);
      m != [] && !StartsWith(m, "CONNECT:") && !StartsWith(m, "QUERY") && !StartsWith(m, "MESSAGE:") ==>
        Decode(raw) == Unknown
  {
  }

  /** A stripped string can carry at most one of the three tags. */
  lemma TagsExclusive(m: string)
    ensures StartsWith(m, "CONNECT:") ==> m[0] == 'C'
    ensures StartsWith(m, "QUERY") ==> m[0] == 'Q'
    ensures StartsWith(m, "MESSAGE:") ==> m[0] == 'M'
  {
    if StartsWith(m, "CONNECT:") {
      assert m[..8][0] == m[0];
    }
    if StartsWith(m, "QUERY") {
      assert m[..5][0] == m[0];
    }
    if StartsWith(m, "MESSAGE:") {
      assert m[..8][0] == m[0];
    }
  }

  /**
   * A CONNECT frame split on every ':': the name and the declared port are
   * the second and third fields; fields past the third are ignored.
   */
  function DecodeConnect(m: string): (f: Frame)
    requires StartsWith(m, "CONNECT:")
    ensures f.Connect? || f.ShortConnect?
    ensures f.Connect? <==> Colons(m) >= 2
    ensures f.Connect? ==> ':' !in f.name && ':' !in f.port
    ensures f.Connect? ==>
      exists rest :: m == ConnectFrame(f.name, f.port) + rest && (rest == [] || rest[0] == ':')
  {
    var parts := SplitAll(m);
    if |parts| >= 3 then
      ConnectFields(parts, m);
      Connect(parts[1], parts[2])
    else ShortConnect
  }

  /**
   * Three or more colon-free fields that join to a `CONNECT:` string are that
   * string's CONNECT frame followed by nothing or by further ':'-fields.
   */
  lemma ConnectFields(parts: seq<string>, m: string)
    requires |parts| >= 3 && Join(parts) == m && StartsWith(m, "CONNECT:")
    requires forall i :: 0 <= i < |parts| ==> ':' !in parts[i]
    ensures var rest := if |parts| == 3 then [] else ":" + Join(parts[3..]);
      m == ConnectFrame(parts[1], parts[2]) + rest
  {
    var rest := if |parts| == 3 then [] else ":" + Join(parts[3..]);
    TagField(parts, "CONNECT");
    JoinCons(parts);
    JoinCons(parts[1..]);
    assert parts[1..][1..] == parts[2..];
    JoinLast(parts[2..]);
    assert parts[2..][1..] == parts[3..];
    ConnectFrameFields(parts[1], parts[2], rest);
  }

  /** The first field of a join, followed by the rest of the join, if any. */
  lemma JoinLast(parts: seq<string>)
    requires |parts| >= 1
    ensures Join(parts) == parts[0] + (if |parts| == 1 then [] else ":" + Join(parts[1..]))
  {
    if |parts| == 1 {
      assert parts[0] + [] == parts[0];
    }
  }

  /**
   * A MESSAGE frame split at most three times: the text is everything
   * after the third ':', colons included.
   */
  function DecodeMessage(m: string): (f: Frame)
    requires StartsWith(m, "MESSAGE:")
    ensures f.Message? || f.MalformedMessage?
    ensures f.Message? <==> Colons(m) >= 3
    ensures f.Message? ==> ':' !in f.name && ':' !in f.port
    ensures f.Message? ==> m == MessageFrame(f.name, f.port, f.text)
  {
    var parts := SplitAtMost(m, 3);
    if |parts| < 4 then MalformedMessage
    else
      MessageFields(parts, m);
      Message(parts[1], parts[2], parts[3])
  }

  lemma MessageFields(parts: seq<string>, m: string)
    requires |parts| == 4 && Join(parts) == m && StartsWith(m, "MESSAGE:")
    requires ':' !in parts[0] && ':' !in parts[1] && ':' !in parts[2]
    ensures m == MessageFrame(parts[1], parts[2], parts[3])
  {
    TagField(parts, "MESSAGE");
    JoinCons(parts);
    JoinCons(parts[1..]);
    JoinCons(parts[2..]);
    assert parts[2..][1..] == [parts[3]];
  }

  /**
   * When fields join to a string that starts with `tag + ":"` and the
   * first field and the tag are colon-free, the first field is the tag.
   */
  lemma TagField(parts: seq<string>, tag: string)
    requires |parts| >= 2 && ':' !in parts[0] && ':' !in tag
    requires StartsWith(Join(parts), tag + ":")
    ensures parts[0] == tag
  {
    var s := Join(parts);
    JoinCons(parts);
    FindColonAfter(parts[0], Join(parts[1..]));
    assert s[..|tag| + 1] == tag + ":";
    assert s == tag + ":" + s[|tag| + 1..];
    FindColonAfter(tag, s[|tag| + 1..]);
    assert parts[0] == s[..|parts[0]|];
    assert tag == s[..|tag|];
  }

  /** A stripped string tagged `MESSAGE:` is decoded as a MESSAGE frame. */
  lemma DecodeAsMessage(m: string)
    requires Strip(m) == m && StartsWith(m, "MESSAGE:")
    ensures Decode(m) == DecodeMessage(m)
  {
    TagsExclusive(m);
  }

  /** A stripped string tagged `CONNECT:` is decoded as a CONNECT frame. */
  lemma DecodeAsConnect(m: string)
    requires Strip(m) == m && StartsWith(m, "CONNECT:")
    ensures Decode(m) == DecodeConnect(m)
  {
    TagsExclusive(m);
  }

  /** A MESSAGE frame is its four fields joined on ':'. */
  lemma MessageFrameJoin(name: string, port: string, text: string)
    ensures Join(["MESSAGE", name, port, text]) == MessageFrame(name, port, text)
  {
    var parts := ["MESSAGE", name, port, text];
    JoinCons(parts);
    JoinCons(parts[1..]);
    JoinCons(parts[2..]);
    assert parts[2..][1..] == [text];
  }

  /** Splitting a MESSAGE frame at most three times gives back its four fields. */
  lemma MessageFrameSplit(name: string, port: string, text: string)
    requires ':' !in name && ':' !in port
    ensures SplitAtMost(MessageFrame(name, port, text), 3) == ["MESSAGE", name, port, text]
  {
    MessageFrameJoin(name, port, text);
    SplitAtMostJoin(["MESSAGE", name, port, text], 3);
  }

  /** A MESSAGE frame whose text has no trailing whitespace survives `strip()`. */
  lemma MessageFrameStripped(name: string, port: string, text: string)
    requires NoTrailingSpace(text)
    ensures Strip(MessageFrame(name, port, text)) == MessageFrame(name, port, text)
  {
    var f := MessageFrame(name, port, text);
    assert f[0] == 'M';
    assert f[|f| - 1] == if text == [] then ':' else text[|text| - 1];
    StripNoop(f);
  }

  lemma MessageFrameTagged(name: string, port: string, text: string)
    ensures StartsWith(MessageFrame(name, port, text), "MESSAGE:")
  {
  }

  /** A MESSAGE frame built by `send_message` decodes to the same name, port and text. */
  lemma MessageRoundTrip(name: string, port: string, text: string)
    requires ':' !in name && ':' !in port && NoTrailingSpace(text)
    ensures Decode(MessageFrame(name, port, text)) == Message(name, port, text)
  {
    MessageFrameSplit(name, port, text);
    MessageFrameStripped(name, port, text);
    MessageFrameTagged(name, port, text);
    DecodeAsMessage(MessageFrame(name, port, text));
  }

  /** A CONNECT frame followed by `rest`, regrouped field by field. */
  lemma ConnectFrameFields(name: string, port: string, rest: string)
    ensures ConnectFrame(name, port) + rest == "CONNECT" + ":" + (name + ":" + (port + rest))
  {
  }

  /** The first field of `port + rest`, when `rest` is empty or starts a new field. */
  lemma FirstField(port: string, rest: string)
    requires ':' !in port
    requires rest == [] || rest[0] == ':'
    ensures SplitAll(port + rest)[0] == port
  {
    if rest == [] {
      assert port + rest == port;
      SplitAllAtom(port);
    } else {
      assert port + rest == port + ":" + rest[1..];
      SplitAllCons(port, rest[1..]);
    }
  }

  /** The fields of a CONNECT frame followed by `rest`, split on every ':'. */
  lemma ConnectFrameSplit(name: string, port: string, rest: string)
    requires ':' !in name && ':' !in port
    requires rest == [] || rest[0] == ':'
    ensures var parts := SplitAll(ConnectFrame(name, port) + rest);
      |parts| >= 3 && parts[1] == name && parts[2] == port
  {
    var tail := port + rest;
    FirstField(port, rest);
    ConnectFrameFields(name, port, rest);
    SplitAllCons("CONNECT", name + ":" + tail);
    SplitAllCons(name, tail);
  }

  lemma ConnectFrameStripped(name: string, port: string, rest: string)
    requires NoTrailingSpace(port + rest)
    ensures Strip(ConnectFrame(name, port) + rest) == ConnectFrame(name, port) + rest
  {
    var f := ConnectFrame(name, port) + rest;
    var tail := port + rest;
    assert f[0] == 'C';
    assert f[|f| - 1] == if tail == [] then ':' else tail[|tail| - 1];
    StripNoop(f);
  }

  lemma ConnectFrameTagged(name: string, port: string, rest: string)
    ensures StartsWith(ConnectFrame(name, port) + rest, "CONNECT:")
  {
    assert (ConnectFrame(name, port) + rest)[..8] == "CONNECT:";
  }

  /**
   * A CONNECT frame built by `connect_to_peers` decodes to the same name and
   * port, also when further ':'-separated fields follow it.
   */
  lemma ConnectRoundTrip(name: string, port: string, rest: string)
    requires ':' !in name && ':' !in port
    requires rest == [] || rest[0] == ':'
    requires NoTrailingSpace(port + rest)
    ensures Decode(ConnectFrame(name, port) + rest) == Connect(name, port)
  {
    ConnectFrameSplit(name, port, rest);
    ConnectFrameStripped(name, port, rest);
    ConnectFrameTagged(name, port, rest);
    DecodeAsConnect(ConnectFrame(name, port) + rest);
  }

  /** `CONNECT:<name>` survives `strip()` when the name has no trailing whitespace. */
  lemma BareConnectStripped(name: string)
    requires NoTrailingSpace(name)
    ensures Strip("CONNECT:" + name) == "CONNECT:" + name
  {
    var f := "CONNECT:" + name;
    assert f[0] == 'C';
    assert f[|f| - 1] == if name == [] then ':' else name[|name| - 1];
    StripNoop(f);
  }

  lemma BareConnectColons(name: string)
    requires ':' !in name
    ensures StartsWith("CONNECT:" + name, "CONNECT:")
    ensures Colons("CONNECT:" + name) == 1
  {
    ColonsAppend("CONNECT:", name);
    ColonsNone(name);
    assert ("CONNECT:" + name)[..8] == "CONNECT:";
  }

  /** `CONNECT:<name>` without a port is too short to be accepted. */
  lemma ConnectWithoutPort(name: string)
    requires ':' !in name && NoTrailingSpace(name)
    ensures Decode("CONNECT:" + name) == ShortConnect
  {
    BareConnectStripped(name);
    BareConnectColons(name);
  }

  /** `MESSAGE:<name>:<port>` survives `strip()` when the port has no trailing whitespace. */
  lemma BareMessageStripped(name: string, port: string)
    requires NoTrailingSpace(port)
    ensures Strip("MESSAGE:" + name + ":" + port) == "MESSAGE:" + name + ":" + port
  {
    var f := "MESSAGE:" + name + ":" + port;
    assert f[0] == 'M';
    assert f[|f| - 1] == if port == [] then ':' else port[|port| - 1];
    StripNoop(f);
  }

  lemma BareMessageColons(name: string, port: string)
    requires ':' !in name && ':' !in port
    ensures StartsWith("MESSAGE:" + name + ":" + port, "MESSAGE:")
    ensures Colons("MESSAGE:" + name + ":" + port) == 2
  {
    ColonsAppend("MESSAGE:", name);
    ColonsAppend("MESSAGE:" + name, ":");
    ColonsAppend("MESSAGE:" + name + ":", port);
    ColonsNone(name);
    ColonsNone(port);
    assert ("MESSAGE:" + name + ":" + port)[..8] == "MESSAGE:";
  }

  /** `MESSAGE:<name>:<port>` without a text is reported as malformed. */
  lemma MessageWithoutText(name: string, port: string)
    requires ':' !in name && ':' !in port && NoTrailingSpace(port)
    ensures Decode("MESSAGE:" + name + ":" + port) == MalformedMessage
  {
    BareMessageStripped(name, port);
    BareMessageColons(name, port);
  }

  /** How `connect_to_peers` judges one handshake. */
  datatype Handshake =
    | Accepted(acceptor: string)   // the reply starts with `ACK:`; the acceptor's name follows
    | NotAcknowledged              // any other reply
    | AckWithoutName               // `ACK:` but fewer than two fields (cannot happen)
    | Failed                       // the connection, the send or the receive failed

  /**
   * The stripped reply counts as an acknowledgment exactly when it starts
   * with `ACK:`; the guard on the number of fields that follows can never
   * fail, because the tag itself supplies a ':'.
   */
  function Acknowledgment(reply: string): (h: Handshake)
    ensures !h.AckWithoutName? && !h.Failed?
    ensures h.Accepted? <==> StartsWith(Strip(reply), "ACK:")
    ensures h.Accepted? ==> ':' !in h.acceptor
    ensures h.Accepted? ==>
      exists rest :: Strip(reply) == "ACK:" + h.acceptor + rest && (rest == [] || rest[0] == ':')
  {
    var r := Strip(reply);
    if !StartsWith(r, "ACK:") then NotAcknowledged
    else
      var parts := SplitAll(r);
      AckTagSplits(r);
      if |parts| >= 2 then
        AckFields(parts, r);
        Accepted(parts[1])
      else AckWithoutName
  }

  /**
   * Two or more colon-free fields that join to an `ACK:` string: the second
   * field follows the tag and is followed by nothing or by further ':'-fields.
   */
  lemma AckFields(parts: seq<string>, r: string)
    requires |parts| >= 2 && Join(parts) == r && StartsWith(r, "ACK:")
    requires forall i :: 0 <= i < |parts| ==> ':' !in parts[i]
    ensures exists rest :: r == "ACK:" + parts[1] + rest && (rest == [] || rest[0] == ':')
  {
    var rest := if |parts| == 2 then [] else ":" + Join(parts[2..]);
    TagField(parts, "ACK");
    JoinCons(parts);
    JoinLast(parts[1..]);
    assert parts[1..][1..] == parts[2..];
    AckRegroup(parts[1], rest);
  }

  lemma AckRegroup(name: string, rest: string)
    ensures "ACK:" + name + rest == "ACK" + ":" + (name + rest)
  {
  }

  /** A reply `ACK:<name>` without a port is accepted, with that name. */
  lemma AckNoPort(name: string)
    requires ':' !in name && NoTrailingSpace(name)
    ensures Acknowledgment("ACK:" + name) == Accepted(name)
  {
    var r := "ACK:" + name;
    assert r[0] == 'A';
    assert r[|r| - 1] == if name == [] then ':' else name[|name| - 1];
    StripNoop(r);
    assert r == "ACK" + ":" + name;
    SplitAllCons("ACK", name);
    SplitAllAtom(name);
  }

  /** A string tagged `ACK:` splits into at least two fields. */
  lemma AckTagSplits(r: string)
    requires StartsWith(r, "ACK:")
    ensures |SplitAll(r)| >= 2
  {
    AckTagRegroup(r);
    SplitAllCons("ACK", r[4..]);
  }

  lemma AckTagRegroup(r: string)
    requires StartsWith(r, "ACK:")
    ensures r == "ACK" + ":" + r[4..]
  {
    assert r == r[..4] + r[4..];
  }

  /** The `ACK` frame an acceptor sends is recognised, with the acceptor's name. */
  lemma AckRoundTrip(name: string, port: string)
    requires ':' !in name
    ensures Acknowledgment(AckFrame(name, port)) == Accepted(name)
  {
    AckSecondField(name, port);
    AckAccepts(AckFrame(name, port), name);
  }

  /** The stripped `ACK` frame is tagged `ACK:` and its second field is the name. */
  lemma AckSecondField(name: string, port: string)
    requires ':' !in name
    ensures var r := Strip(AckFrame(name, port));
      StartsWith(r, "ACK:") && |SplitAll(r)| >= 2 && SplitAll(r)[1] == name
  {
    AckFrameStripped(name, port);
    var r := Strip(AckFrame(name, port));
    var more := r[5 + |name|..];
    SplitAllCons("ACK", name + ":" + more);
    SplitAllCons(name, more);
  }

  /** A reply whose stripped form is tagged `ACK:` is accepted with its second field. */
  lemma AckAccepts(reply: string, name: string)
    requires var r := Strip(reply); StartsWith(r, "ACK:") && |SplitAll(r)| >= 2 && SplitAll(r)[1] == name
    ensures Acknowledgment(reply) == Accepted(name)
  {
  }

  /** A RESPONSE frame sent back to a CONNECT is not an acknowledgment. */
  lemma ResponseIsNoAck(name: string, port: string)
    ensures Acknowledgment(ResponseFrame(name, port)) == NotAcknowledged
  {
    var f := ResponseFrame(name, port);
    assert f[0] == 'R' && f[8] == ':';
    StripKeepsThrough(f, 8);
    var r := Strip(f);
    assert r[0] == 'R';
  }

  /**
   * Stripping an ACK frame can only shorten its port: the tag, the name and
   * the ':' after the name stay.
   */
  lemma AckFrameStripped(name: string, port: string)
    ensures var r := Strip(AckFrame(name, port));
      |r| > 4 + |name| && StartsWith(r, "ACK:") && r == "ACK" + ":" + (name + ":" + r[5 + |name|..])
  {
    var f := AckFrame(name, port);
    var k := 4 + |name|;
    assert f[0] == 'A' && f[k] == ':';
    StripKeepsThrough(f, k);
    var r := Strip(f);
    assert r[..k + 1] == f[..k + 1] == "ACK:" + name + ":";
    assert r == r[..k + 1] + r[k + 1..];
  }
}
