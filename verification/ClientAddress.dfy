/** Choosing the client address from X-Forwarded-For.

    Each proxy appends the peer it saw to whatever header it received. The address
    the outermost trusted proxy appended sits a known number of places from the
    right, so nothing the client wrote can move or replace it. */
module ClientAddress {
  import opened Wrappers

  const COMMA: char := ','

  /** The characters Python's str.strip() removes. */
  predicate IsSpace(c: char) {
    || '\t' <= c <= '\r'
    || '\U{1c}' <= c <= ' '
    || c == '\U{85}' || c == '\U{a0}' || c == '\U{1680}'
    || '\U{2000}' <= c <= '\U{200a}'
    || c == '\U{2028}' || c == '\U{2029}' || c == '\U{202f}' || c == '\U{205f}' || c == '\U{3000}'
  }

  predicate AllSpaces(s: string) {
    forall i :: 0 <= i < |s| ==> IsSpace(s[i])
  }

  predicate Trimmed(s: string) {
    s != "" ==> !IsSpace(s[0]) && !IsSpace(s[|s| - 1])
  }

  function LeftStripped(s: string): string {
    if s != "" && IsSpace(s[0]) then LeftStripped(s[1..]) else s
  }

  function RightStripped(s: string): string {
    if s != "" && IsSpace(s[|s| - 1]) then RightStripped(s[..|s| - 1]) else s
  }

  function Stripped(s: string): string {
    RightStripped(LeftStripped(s))
  }

  /** str.split(","), which always yields at least one field. */
  function Split(s: string): (fields: seq<string>)
    ensures |fields| > 0
  {
    if s == "" then [""]
    else if s[0] == COMMA then [""] + Split(s[1..])
    else var rest := Split(s[1..]); [[s[0]] + rest[0]] + rest[1..]
  }

  /** The fields that are not blank, each without its surrounding spaces. */
  function NonBlank(fields: seq<string>): seq<string> {
    if fields == [] then []
    else (if Stripped(fields[0]) == "" then [] else [Stripped(fields[0])]) + NonBlank(fields[1..])
  }

  function Addresses(header: string): seq<string> {
    NonBlank(Split(header))
  }

  /** The address recorded for a request: `peer` is the TCP peer when there is one. */
  function ClientIp(peer: Option<string>, hops: int, forwarded: Option<string>): Option<string> {
    if hops <= 0 then peer
    else if forwarded.None? || forwarded.value == "" then peer
    else
      var addresses := Addresses(forwarded.value);
      if |addresses| < hops then peer else Some(addresses[|addresses| - hops])
  }

  // ------------------------------------------------------- the string steps

  lemma {:induction false} LeftStripDropsOnlySpaces(s: string) returns (before: string)
    ensures s == before + LeftStripped(s) && AllSpaces(before)
    ensures LeftStripped(s) != "" ==> !IsSpace(LeftStripped(s)[0])
  {
    before := "";
    if s != "" && IsSpace(s[0]) {
      before := LeftStripDropsOnlySpaces(s[1..]);
      before := [s[0]] + before;
    }
  }

  lemma {:induction false} RightStripDropsOnlySpaces(s: string) returns (after: string)
    ensures s == RightStripped(s) + after && AllSpaces(after)
    ensures RightStripped(s) != "" ==> !IsSpace(RightStripped(s)[|RightStripped(s)| - 1])
  {
    after := "";
    if s != "" && IsSpace(s[|s| - 1]) {
      after := RightStripDropsOnlySpaces(s[..|s| - 1]);
      after := after + [s[|s| - 1]];
    }
  }

  /** strip() removes spaces at both ends and nothing else. */
  lemma StripKeepsTheMiddle(s: string) returns (before: string, after: string)
    ensures s == before + Stripped(s) + after
    ensures AllSpaces(before) && AllSpaces(after) && Trimmed(Stripped(s))
  {
    before := LeftStripDropsOnlySpaces(s);
    after := RightStripDropsOnlySpaces(LeftStripped(s));
    var middle := Stripped(s);
    if middle != "" {
      assert LeftStripped(s)[0] == middle[0];
    }
  }

  function Joined(fields: seq<string>): string
    requires |fields| > 0
  {
    if |fields| == 1 then fields[0] else fields[0] + [COMMA] + Joined(fields[1..])
  }

  /** split(",") loses nothing: the fields are comma-free and joining them gives the text back. */
  lemma {:induction false} SplitInvertsJoin(s: string)
    ensures Joined(Split(s)) == s
    ensures forall i :: 0 <= i < |Split(s)| ==> COMMA !in Split(s)[i]
  {
    if s != "" {
      SplitInvertsJoin(s[1..]);
      var rest := Split(s[1..]);
      if s[0] == COMMA {
        assert Split(s)[1..] == rest;
        assert s == [COMMA] + s[1..];
      } else {
        assert Split(s)[1..] == rest[1..];
        assert s == [s[0]] + s[1..];
        if |rest| > 1 {
          assert [s[0]] + (rest[0] + [COMMA] + Joined(rest[1..])) == [s[0]] + rest[0] + [COMMA] + Joined(rest[1..]);
        }
      }
    }
  }

  lemma {:induction false} SplitAtComma(a: string, b: string)
    ensures Split(a + [COMMA] + b) == Split(a) + Split(b)
  {
    var s := a + [COMMA] + b;
    if a == "" {
      assert s[1..] == b;
    } else {
      assert s[1..] == a[1..] + [COMMA] + b;
      SplitAtComma(a[1..], b);
    }
  }

  lemma {:induction false} NonBlankConcat(a: seq<string>, b: seq<string>)
    ensures NonBlank(a + b) == NonBlank(a) + NonBlank(b)
  {
    if a == [] {
      assert a + b == b;
    } else {
      assert (a + b)[1..] == a[1..] + b;
      NonBlankConcat(a[1..], b);
    }
  }

  lemma {:induction false} CommaFreeIsOneField(s: string)
    requires COMMA !in s
    ensures Split(s) == [s]
  {
    if s != "" {
      CommaFreeIsOneField(s[1..]);
      assert [s[0]] + s[1..] == s;
    }
  }

  // ------------------------------------------------------- the proxies

  /** What a proxy may append: a nonempty trimmed address without a comma. */
  predicate IsAddress(s: string) {
    s != "" && COMMA !in s && Trimmed(s)
  }

  /** $proxy_add_x_forwarded_for: the received header, a comma and a space, the peer. */
  function Forwarded(received: Option<string>, peer: string): string {
    match received
    case None => peer
    case Some(header) => header + ", " + peer
  }

  /** The header after every proxy in the chain, outermost first, has appended its peer. */
  function ThroughProxies(received: Option<string>, peers: seq<string>): Option<string>
    decreases |peers|
  {
    if peers == [] then received
    else ThroughProxies(Some(Forwarded(received, peers[0])), peers[1..])
  }

  function ClientFields(received: Option<string>): seq<string> {
    if received.None? then [] else Addresses(received.value)
  }

  lemma AppendedFieldIsTheAddress(peer: string)
    requires IsAddress(peer)
    ensures Addresses(peer) == [peer] && Addresses(" " + peer) == [peer]
  {
    var spaced := " " + peer;
    CommaFreeIsOneField(peer);
    assert Stripped(peer) == peer;
    assert COMMA !in spaced;
    CommaFreeIsOneField(spaced);
    assert spaced[1..] == peer;
    assert LeftStripped(spaced) == LeftStripped(peer) == peer;
    assert NonBlank([spaced]) == [peer] + NonBlank([spaced][1..]);
  }

  lemma ForwardingAppendsOneAddress(received: Option<string>, peer: string)
    requires IsAddress(peer)
    ensures Addresses(Forwarded(received, peer)) == ClientFields(received) + [peer]
    ensures Forwarded(received, peer) != ""
  {
    AppendedFieldIsTheAddress(peer);
    if received.Some? {
      var header := received.value;
      assert header + ", " + peer == header + [COMMA] + (" " + peer);
      SplitAtComma(header, " " + peer);
      NonBlankConcat(Split(header), Split(" " + peer));
    }
  }

  lemma {:induction false} ProxiesOnlyAppend(received: Option<string>, peers: seq<string>)
    requires forall i :: 0 <= i < |peers| ==> IsAddress(peers[i])
    ensures ClientFields(ThroughProxies(received, peers)) == ClientFields(received) + peers
    decreases |peers|
  {
    if peers == [] {
      assert ClientFields(received) + peers == ClientFields(received);
    } else {
      var received' := Some(Forwarded(received, peers[0]));
      assert ThroughProxies(received, peers) == ThroughProxies(received', peers[1..]);
      ProxiesOnlyAppend(received', peers[1..]);
      assert ClientFields(received') == ClientFields(received) + [peers[0]] by {
        ForwardingAppendsOneAddress(received, peers[0]);
      }
      MoveFirst(ClientFields(received), peers);
    }
  }

  lemma MoveFirst(fields: seq<string>, peers: seq<string>)
    requires peers != []
    ensures fields + [peers[0]] + peers[1..] == fields + peers
  {
  }

  lemma {:induction false} ProxiesLeaveAHeader(received: Option<string>, peers: seq<string>)
    requires peers != []
    requires forall i :: 0 <= i < |peers| ==> IsAddress(peers[i])
    ensures ThroughProxies(received, peers).Some? && ThroughProxies(received, peers).value != ""
    decreases |peers|
  {
    var header, rest := Forwarded(received, peers[0]), peers[1..];
    if rest != [] {
      ProxiesLeaveAHeader(Some(header), rest);
    }
  }

  /** A header that a client can send: as many addresses as it likes. */
  lemma ClientCanSend(address: string, n: nat) returns (received: Option<string>)
    requires IsAddress(address)
    ensures ClientFields(received) == seq(n, _ => address)
  {
    received := ThroughProxies(None, seq(n, _ => address));
    ProxiesOnlyAppend(None, seq(n, _ => address));
    assert ClientFields(None) == [];
  }

  lemma BelievedHeader(peer: Option<string>, hops: int, header: string)
    requires 0 < hops <= |Addresses(header)| && header != ""
    ensures ClientIp(peer, hops, Some(header)) == Some(Addresses(header)[|Addresses(header)| - hops])
  {
  }

  lemma FieldOfAProxy(peer: Option<string>, hops: int, header: string, fields: seq<string>, trusted: seq<string>)
    requires 0 < hops <= |trusted| && header != "" && Addresses(header) == fields + trusted
    ensures ClientIp(peer, hops, Some(header)) == Some(trusted[|trusted| - hops])
  {
  }

  lemma HeaderBehindProxies(received: Option<string>, trusted: seq<string>) returns (header: string)
    requires trusted != []
    requires forall i :: 0 <= i < |trusted| ==> IsAddress(trusted[i])
    ensures ThroughProxies(received, trusted) == Some(header) && header != ""
    ensures Addresses(header) == ClientFields(received) + trusted
  {
    ProxiesOnlyAppend(received, trusted);
    ProxiesLeaveAHeader(received, trusted);
    header := ThroughProxies(received, trusted).value;
  }

  lemma DeclaredTooMany(peer: Option<string>, hops: nat, trusted: seq<string>, address: string)
    returns (received: Option<string>)
    requires hops > |trusted| && IsAddress(address)
    requires forall i :: 0 <= i < |trusted| ==> IsAddress(trusted[i])
    ensures ClientIp(peer, hops, ThroughProxies(received, trusted)) == Some(address)
  {
    received := ClientCanSend(address, hops - |trusted|);
    ProxiesOnlyAppend(received, trusted);
    var header := ThroughProxies(received, trusted);
    assert ClientFields(header)[0] == address && |ClientFields(header)| == hops;
    assert Addresses("") == [] by {
      assert Split("") == [""] && NonBlank([""]) == [] + NonBlank([""][1..]);
    }
    BelievedHeader(peer, hops, header.value);
  }

  lemma DeclaredAtMost(peer: Option<string>, hops: int, trusted: seq<string>, received: Option<string>)
    requires hops <= |trusted|
    requires forall i :: 0 <= i < |trusted| ==> IsAddress(trusted[i])
    ensures ClientIp(peer, hops, ThroughProxies(received, trusted))
            == if hops <= 0 then peer else Some(trusted[|trusted| - hops])
  {
    if hops > 0 {
      var header := HeaderBehindProxies(received, trusted);
      FieldOfAProxy(peer, hops, header, ClientFields(received), trusted);
    }
  }

  /** Whatever the client, or any proxy that is not trusted, put in the header: the
      recorded address is the peer that the outermost trusted proxy saw. */
  lemma ClientCannotChooseTheAddress(peer: Option<string>, received: Option<string>, trusted: seq<string>)
    requires trusted != []
    requires forall i :: 0 <= i < |trusted| ==> IsAddress(trusted[i])
    ensures ClientIp(peer, |trusted|, ThroughProxies(received, trusted)) == Some(trusted[0])
  {
    DeclaredAtMost(peer, |trusted|, trusted, received);
  }

  /** A header with fewer addresses than declared hops did not come the declared way: the peer of
      the connection is used, whatever the header says. */
  lemma TooFewAddressesMeanThePeer(peer: Option<string>, hops: int, received: Option<string>, trusted: seq<string>)
    requires forall i :: 0 <= i < |trusted| ==> IsAddress(trusted[i])
    requires |ClientFields(received)| + |trusted| < hops
    ensures ClientIp(peer, hops, ThroughProxies(received, trusted)) == peer
  {
    ProxiesOnlyAppend(received, trusted);
  }

  /** Every field that is used is trimmed and not empty. */
  lemma {:induction false} FieldsAreTrimmed(fields: seq<string>)
    ensures forall f :: f in NonBlank(fields) ==> f != "" && Trimmed(f)
  {
    if fields != [] {
      FieldsAreTrimmed(fields[1..]);
      var before, after := StripKeepsTheMiddle(fields[0]);
    }
  }

  /** An empty field between commas counts for nothing. */
  lemma BlankFieldsDoNotCount(header: string, blank: string)
    requires AllSpaces(blank) && COMMA !in blank
    ensures Addresses(header + "," + blank) == Addresses(header)
  {
    SplitAtComma(header, blank);
    assert header + "," + blank == header + [COMMA] + blank;
    CommaFreeIsOneField(blank);
    NonBlankConcat(Split(header), [blank]);
    NothingOfBlank(blank);
    assert NonBlank([blank]) == [] + NonBlank([blank][1..]);
  }

  lemma {:induction false} NothingOfBlank(blank: string)
    requires AllSpaces(blank)
    ensures LeftStripped(blank) == "" && Stripped(blank) == ""
  {
    if blank != "" {
      NothingOfBlank(blank[1..]);
    }
  }

  /** The characters that are stripped, one by one. */
  lemma StrippedCharacters(c: char)
    ensures IsSpace(c) <==>
            || c in "\t\n\U{b}\U{c}\r\U{1c}\U{1d}\U{1e}\U{1f} \U{85}\U{a0}\U{1680}"
            || c in "\U{2000}\U{2001}\U{2002}\U{2003}\U{2004}\U{2005}\U{2006}\U{2007}\U{2008}\U{2009}\U{200a}"
            || c in "\U{2028}\U{2029}\U{202f}\U{205f}\U{3000}"
  {
  }

  /** Nothing the client sends has any influence if and only if no more hops are declared than
      there are proxies that append an address. */
  lemma ClientHasNoInfluenceExactlyWhen(peer: Option<string>, hops: int, trusted: seq<string>)
    requires forall i :: 0 <= i < |trusted| ==> IsAddress(trusted[i])
    ensures (forall a, b :: ClientIp(peer, hops, ThroughProxies(a, trusted))
                            == ClientIp(peer, hops, ThroughProxies(b, trusted)))
            <==> hops <= |trusted|
  {
    if hops <= |trusted| {
      forall a, b ensures ClientIp(peer, hops, ThroughProxies(a, trusted))
                          == ClientIp(peer, hops, ThroughProxies(b, trusted))
      {
        DeclaredAtMost(peer, hops, trusted, a);
        DeclaredAtMost(peer, hops, trusted, b);
      }
    } else {
      var a := DeclaredTooMany(peer, hops, trusted, "1");
      var b := DeclaredTooMany(peer, hops, trusted, "2");
      assert "1"[0] != "2"[0];
    }
  }
}
