/** The authority loop against the grammar: what it makes of every well-formed authority
    (`AuthorityRun`) and that it accepts nothing else (`AuthoritySound`). */
module UrlHostProofs {
  import opened Wrappers
  import opened UrlChars
  import opened UrlParser
  import opened UrlGrammar

  function HostStateRun(s: HostState, w: string): HostState
    decreases |w|
  {
    if w == "" then s else HostStateRun(NextHostState(s, w[0]), w[1..])
  }

  lemma {:induction false} HostConcat(h: HostScan, pos: nat, a: string, b: string)
    ensures HostRun(h, pos, a + b) == HostRun(HostRun(h, pos, a), pos + |a|, b)
    decreases |a|
  {
    if a == "" {
      assert a + b == b;
    } else {
      assert (a + b)[1..] == a[1..] + b;
      HostConcat(HostChar(h, pos, a[0]), pos + 1, a[1..], b);
    }
  }

  lemma {:induction false} HostFollowsStates(h: HostScan, pos: nat, w: string)
    ensures HostRun(h, pos, w).s == HostStateRun(h.s, w)
    decreases |w|
  {
    if w != "" {
      HostFollowsStates(HostChar(h, pos, w[0]), pos + 1, w[1..]);
    }
  }

  lemma {:induction false} DeadHostStateStays(w: string)
    ensures HostStateRun(HostDead, w) == HostDead
  {
    if w != "" {
      DeadHostStateStays(w[1..]);
    }
  }

  // ----- runs inside one field

  function HostFieldOf(s: HostState): Option<Field> {
    match s
    case Host => Some(UfHost)
    case V6 => Some(UfHost)
    case Zone => Some(UfHost)
    case Port => Some(UfPort)
    case Userinfo => Some(UfUserinfo)
    case _ => None
  }

  lemma {:induction false} HostFieldExtends(h: HostScan, pos: nat, w: string, f: Field)
    requires HostFieldOf(h.s) == Some(f) && f in h.data
    requires forall i :: 0 <= i < |w| ==> NextHostState(h.s, w[i]) == h.s
    requires 0 <= h.data[f].len <= 0xFFFF
    ensures HostRun(h, pos, w) == h.(data := Grown(h.data, f, |w|))
    decreases |w|
  {
    if w == "" {
      assert Grown(h.data, f, 0) == h.data;
    } else {
      var next := HostChar(h, pos, w[0]);
      assert NextHostState(h.s, w[0]) == h.s;
      assert next == h.(data := Grown(h.data, f, 1));
      hide NextHostState, HostChar;
      assert forall i :: 0 <= i < |w[1..]| ==> w[1..][i] == w[i + 1];
      HostFieldExtends(next, pos + 1, w[1..], f);
      GrownTwice(h.data, f, |w| - 1);
    }
  }

  lemma UserinfoRun(h: HostScan, pos: nat, w: string)
    requires h.s.UserinfoStart? && All(IsUserinfoChar, w)
    ensures var ps := UserinfoPieces(Some(w));
            HostRun(h, pos, w + "@")
            == HostScan(HostStart, h.fields + Place(ps, pos).Keys, h.data + Stored(Place(ps, pos)))
  {
    hide Place, Flatten;
    FieldAndDelimiter(UfUserinfo, w, "@", pos);
    HostConcat(h, pos, w, "@");
    UserinfoTextRun(h, pos, w);
    StoredUpdate(h.data, UfUserinfo, Slice(pos, |w|));
    StoredNothing(h.data);
    assert "@"[1..] == "";
  }

  lemma UserinfoTextRun(h: HostScan, pos: nat, w: string)
    requires h.s.UserinfoStart? && All(IsUserinfoChar, w)
    ensures HostRun(h, pos, w)
         == if w == "" then h
            else HostScan(Userinfo, h.fields + {UfUserinfo}, h.data[UfUserinfo := Kept(Slice(pos, |w|))])
  {
    if w != "" {
      var first := HostChar(h, pos, w[0]);
      assert first == HostScan(Userinfo, h.fields + {UfUserinfo}, h.data[UfUserinfo := Slice(Wrap16(pos), 1)]);
      assert forall i :: 0 <= i < |w[1..]| ==> w[1..][i] == w[i + 1];
      HostFieldExtends(first, pos + 1, w[1..], UfUserinfo);
    }
  }

  lemma RegNameRun(h: HostScan, pos: nat, w: string)
    requires h.s.HostStart? && w != "" && All(IsHostChar, w)
    requires UfHost in h.data && h.data[UfHost].len == 0
    ensures HostRun(h, pos, w) == HostScan(Host, h.fields, h.data[UfHost := Kept(Slice(pos, |w|))])
  {
    var first := HostChar(h, pos, w[0]);
    assert first == HostScan(Host, h.fields, h.data[UfHost := Slice(Wrap16(pos), 1)]);
    assert forall i :: 0 <= i < |w[1..]| ==> w[1..][i] == w[i + 1];
    HostFieldExtends(first, pos + 1, w[1..], UfHost);
  }

  lemma AddressRun(h: HostScan, pos: nat, w: string)
    requires h.s.V6Start? && w != "" && All(IsV6Char, w)
    requires UfHost in h.data && h.data[UfHost].len == 0
    ensures HostRun(h, pos, w) == HostScan(V6, h.fields, h.data[UfHost := Kept(Slice(pos, |w|))])
  {
    var first := HostChar(h, pos, w[0]);
    assert first == HostScan(V6, h.fields, h.data[UfHost := Slice(Wrap16(pos), 1)]);
    assert forall i :: 0 <= i < |w[1..]| ==> w[1..][i] == w[i + 1];
    HostFieldExtends(first, pos + 1, w[1..], UfHost);
  }

  lemma ZoneRun(h: HostScan, pos: nat, zone: string)
    requires h.s.V6? && zone != "" && All(IsZoneChar, zone)
    requires UfHost in h.data && 0 <= h.data[UfHost].len <= 0xFFFF
    ensures HostRun(h, pos, "%" + zone) == HostScan(Zone, h.fields, Grown(h.data, UfHost, 1 + |zone|))
  {
    var w := "%" + zone;
    assert w[1..] == zone;
    var data1 := Grown(h.data, UfHost, 1);
    var h1 := HostChar(h, pos, '%');
    assert h1 == HostScan(ZoneStart, h.fields, data1);
    var h2 := HostChar(h1, pos + 1, zone[0]);
    assert h2 == HostScan(Zone, h.fields, Grown(data1, UfHost, 1));
    assert forall i :: 0 <= i < |zone[1..]| ==> zone[1..][i] == zone[i + 1];
    HostFieldExtends(h2, pos + 2, zone[1..], UfHost);
    GrownTwice(data1, UfHost, |zone| - 1);
    GrownTwice(h.data, UfHost, |zone|);
  }

  lemma BracketRun(h: HostScan, pos: nat)
    ensures h.s.HostStart? ==> HostRun(h, pos, "[") == h.(s := V6Start)
    ensures h.s.V6? || h.s.Zone? ==> HostRun(h, pos, "]") == h.(s := V6End)
    ensures HostRun(h, pos, "") == h
  {
    assert "["[1..] == "" && "]"[1..] == "";
  }

  lemma V6Run(h: HostScan, pos: nat, address: string, zone: Option<string>)
    requires h.s.HostStart? && ValidHost(V6Literal(address, zone))
    requires UfHost in h.data && h.data[UfHost].len == 0
    ensures HostRun(h, pos, "[" + (address + ZoneText(zone)) + "]")
         == HostScan(V6End, h.fields, h.data[UfHost := Kept(Slice(pos + 1, |address + ZoneText(zone)|))])
  {
    hide HostRun, All;
    var text := address + ZoneText(zone);
    HostConcat(h, pos, "[" + text, "]");
    HostConcat(h, pos, "[", text);
    BracketRun(h, pos);
    var inside := h.(s := V6Start);
    HostConcat(inside, pos + 1, address, ZoneText(zone));
    AddressRun(inside, pos + 1, address);
    var read := HostRun(inside, pos + 1, address);
    var n := pos + 1 + |address|;
    if zone.Some? {
      ZoneRun(read, n, zone.value);
    } else {
      BracketRun(read, n);
    }
    BracketRun(HostRun(read, n, ZoneText(zone)), n + |ZoneText(zone)|);
  }

  lemma PrintedHost(host: HostName, pos: nat)
    ensures host.RegName? ==> Flatten(HostPieces(host)) == host.name
    ensures host.RegName? && host.name != "" ==> Place(HostPieces(host), pos) == map[UfHost := Slice(pos, |host.name|)]
    ensures host.V6Literal? ==> Flatten(HostPieces(host)) == "[" + (host.address + ZoneText(host.zone)) + "]"
    ensures host.V6Literal? && host.address != "" ==>
              Place(HostPieces(host), pos) == map[UfHost := Slice(pos + 1, |host.address + ZoneText(host.zone)|)]
  {
    match host {
      case RegName(name) => SinglePiece(Piece(Some(UfHost), name), pos);
      case V6Literal(address, zone) =>
        var text := address + ZoneText(zone);
        var ps := [Piece(None, "["), Piece(Some(UfHost), text), Piece(None, "]")];
        assert ps[1..] == [Piece(Some(UfHost), text), Piece(None, "]")];
        FieldAndDelimiter(UfHost, text, "]", pos + 1);
    }
  }

  /** The host in any of its forms leaves its slice and an accepting state. */
  lemma HostNameRun(h: HostScan, pos: nat, host: HostName)
    requires h.s.HostStart? && ValidHost(host) && UfHost in h.data && h.data[UfHost].len == 0
    ensures var h' := HostRun(h, pos, Flatten(HostPieces(host)));
            && (h'.s.Host? || h'.s.V6End?) && h'.fields == h.fields
            && h'.data == h.data + Stored(Place(HostPieces(host), pos))
            && Place(HostPieces(host), pos).Keys == {UfHost}
  {
    hide HostRun, Flatten, Place, HostPieces;
    PrintedHost(host, pos);
    match host {
      case RegName(name) =>
        RegNameRun(h, pos, name);
        StoredUpdate(h.data, UfHost, Slice(pos, |name|));
      case V6Literal(address, zone) =>
        V6Run(h, pos, address, zone);
        StoredUpdate(h.data, UfHost, Slice(pos + 1, |address + ZoneText(zone)|));
    }
  }

  lemma PortTextRun(h: HostScan, pos: nat, w: string)
    requires h.s.PortStart? && w != "" && All(IsNum, w)
    ensures HostRun(h, pos, w) == HostScan(Port, h.fields + {UfPort}, h.data[UfPort := Kept(Slice(pos, |w|))])
  {
    var first := HostChar(h, pos, w[0]);
    assert first == HostScan(Port, h.fields + {UfPort}, h.data[UfPort := Slice(Wrap16(pos), 1)]);
    assert forall i :: 0 <= i < |w[1..]| ==> w[1..][i] == w[i + 1];
    HostFieldExtends(first, pos + 1, w[1..], UfPort);
  }

  lemma ColonRun(h: HostScan, pos: nat)
    requires h.s.Host? || h.s.V6End?
    ensures HostRun(h, pos, ":") == h.(s := PortStart)
  {
    assert ":"[1..] == "";
  }

  lemma PortRun(h: HostScan, pos: nat, port: Option<string>)
    requires h.s.Host? || h.s.V6End?
    requires port.Some? ==> port.value != "" && All(IsNum, port.value)
    ensures var ps := PortPieces(port);
            var h' := HostRun(h, pos, Flatten(ps));
            && HostAccepts(h'.s) && h'.fields == h.fields + Place(ps, pos).Keys
            && h'.data == h.data + Stored(Place(ps, pos))
  {
    hide HostRun, Flatten, Place, All;
    if port.Some? {
      DelimiterAndField(":", UfPort, port.value, pos);
      HostConcat(h, pos, ":", port.value);
      ColonRun(h, pos);
      PortTextRun(h.(s := PortStart), pos + 1, port.value);
      StoredUpdate(h.data, UfPort, Slice(pos + 1, |port.value|));
    } else {
      NoPieces(pos);
      StoredNothing(h.data);
      BracketRun(h, pos);
    }
  }

  lemma AuthorityFields(a: Authority)
    ensures FieldsOf(UserinfoPieces(a.userinfo)) <= {UfUserinfo}
    ensures FieldsOf(HostPieces(a.host)) <= {UfHost}
    ensures FieldsOf(PortPieces(a.port)) <= {UfPort}
    ensures FieldsOf(UserinfoPieces(a.userinfo) + HostPieces(a.host)) <= {UfUserinfo, UfHost}
  {
  }

  lemma NoPieces(pos: nat)
    ensures Flatten([]) == "" && Place([], pos) == map[]
  {
  }

  lemma UserinfoStage(h: HostScan, pos: nat, userinfo: Option<string>)
    requires h.s == if userinfo.Some? then UserinfoStart else HostStart
    requires userinfo.Some? ==> All(IsUserinfoChar, userinfo.value)
    ensures var ps := UserinfoPieces(userinfo);
            HostRun(h, pos, Flatten(ps))
            == HostScan(HostStart, h.fields + Place(ps, pos).Keys, h.data + Stored(Place(ps, pos)))
  {
    if userinfo.Some? {
      hide HostRun, Flatten, Place, All;
      FieldAndDelimiter(UfUserinfo, userinfo.value, "@", pos);
      UserinfoRun(h, pos, userinfo.value);
    } else {
      NoPieces(pos);
      StoredNothing(h.data);
    }
  }

  lemma UserinfoAndHostRun(h: HostScan, pos: nat, a: Authority)
    requires ValidAuthority(a) && h.s == if a.userinfo.Some? then UserinfoStart else HostStart
    requires UfHost in h.data && h.data[UfHost].len == 0
    ensures var ps := UserinfoPieces(a.userinfo) + HostPieces(a.host);
            var h' := HostRun(h, pos, Flatten(ps));
            && (h'.s.Host? || h'.s.V6End?) && UfHost in Place(ps, pos)
            && h'.fields + {UfHost} == h.fields + Place(ps, pos).Keys
            && h'.data == h.data + Stored(Place(ps, pos))
  {
    hide HostRun, Flatten, Place, FieldsOf, UserinfoPieces, HostPieces, All, ValidHost, Stored;
    var us, hs := UserinfoPieces(a.userinfo), HostPieces(a.host);
    AuthorityFields(a);
    FlattenConcat(us, hs);
    PlaceConcat(us, hs, pos);
    HostConcat(h, pos, Flatten(us), Flatten(hs));
    var n := pos + |Flatten(us)|;
    PlaceKeys(us, pos);
    UserinfoStage(h, pos, a.userinfo);
    StoredKeys(Place(us, pos));
    HostNameRun(HostRun(h, pos, Flatten(us)), n, a.host);
    StoredMerge(Place(us, pos), Place(hs, n));
    MergeAssociates(h.data, Stored(Place(us, pos)), Stored(Place(hs, n)));
  }

  /** The authority loop on a well-formed authority of any length accepts and places exactly its
      values, in 16 bits. */
  lemma AuthorityRun(h: HostScan, pos: nat, a: Authority)
    requires ValidAuthority(a) && h.s == if a.userinfo.Some? then UserinfoStart else HostStart
    requires UfHost in h.fields && UfHost in h.data && h.data[UfHost].len == 0
    ensures var ps := AuthorityPieces(a);
            var h' := HostRun(h, pos, Flatten(ps));
            && HostAccepts(h'.s) && h'.fields == h.fields + Place(ps, pos).Keys
            && h'.data == h.data + Stored(Place(ps, pos)) && UfHost in Place(ps, pos)
  {
    hide HostRun, Flatten, Place, FieldsOf, UserinfoPieces, HostPieces, PortPieces, All, ValidHost, HostAccepts, Stored;
    var ns, ps := UserinfoPieces(a.userinfo) + HostPieces(a.host), PortPieces(a.port);
    AuthorityFields(a);
    FlattenConcat(ns, ps);
    PlaceConcat(ns, ps, pos);
    HostConcat(h, pos, Flatten(ns), Flatten(ps));
    var n := pos + |Flatten(ns)|;
    UserinfoAndHostRun(h, pos, a);
    HostFieldKept(h, pos, Flatten(ns));
    PortRun(HostRun(h, pos, Flatten(ns)), n, a.port);
    StoredMerge(Place(ns, pos), Place(ps, n));
    MergeAssociates(h.data, Stored(Place(ns, pos)), Stored(Place(ps, n)));
  }

  lemma {:induction false} HostFieldKept(h: HostScan, pos: nat, w: string)
    ensures h.fields <= HostRun(h, pos, w).fields
    decreases |w|
  {
    if w != "" {
      HostFieldKept(HostChar(h, pos, w[0]), pos + 1, w[1..]);
    }
  }

  // ----- soundness

  lemma {:induction false} PortSound(s: HostState, w: string)
    requires s.Port? || s.PortStart?
    requires HostAccepts(HostStateRun(s, w))
    ensures All(IsNum, w) && (s.PortStart? ==> w != "")
    decreases |w|
  {
    if w != "" {
      DeadHostStateStays(w[1..]);
      PortSound(Port, w[1..]);
    }
  }

  lemma AfterHostSound(s: HostState, w: string) returns (port: Option<string>)
    requires s.V6End? || s.Host?
    requires HostAccepts(HostStateRun(s, w)) && (w != "" ==> !IsHostChar(w[0]))
    ensures w == Flatten(PortPieces(port)) && (port.Some? ==> port.value != "" && All(IsNum, port.value))
  {
    hide Flatten;
    NoPieces(0);
    if w == "" {
      port := None;
    } else {
      DeadHostStateStays(w[1..]);
      PortSound(PortStart, w[1..]);
      port := Some(w[1..]);
      DelimiterAndField(":", UfPort, w[1..], 0);
    }
  }

  lemma {:induction false} RegNameSound(w: string) returns (name: string, port: Option<string>)
    requires HostAccepts(HostStateRun(Host, w))
    ensures w == name + Flatten(PortPieces(port)) && All(IsHostChar, name)
    ensures port.Some? ==> port.value != "" && All(IsNum, port.value)
    decreases |w|
  {
    hide Flatten, PortPieces;
    if w != "" && IsHostChar(w[0]) {
      name, port := RegNameSound(w[1..]);
      name := [w[0]] + name;
    } else {
      name := "";
      port := AfterHostSound(Host, w);
    }
  }

  lemma BracketSound(w: string) returns (port: Option<string>)
    requires w != "" && w[0] == ']' && HostAccepts(HostStateRun(V6End, w[1..]))
    ensures w == "]" + Flatten(PortPieces(port)) && (port.Some? ==> port.value != "" && All(IsNum, port.value))
  {
    hide Flatten, PortPieces;
    var rest := w[1..];
    if rest != "" && IsHostChar(rest[0]) {
      DeadHostStateStays(rest[1..]);
    }
    port := AfterHostSound(V6End, rest);
  }

  lemma {:induction false} ZoneSound(s: HostState, w: string) returns (zone: string, port: Option<string>)
    requires s.Zone? || s.ZoneStart?
    requires HostAccepts(HostStateRun(s, w))
    ensures w == zone + "]" + Flatten(PortPieces(port)) && All(IsZoneChar, zone) && (s.ZoneStart? ==> zone != "")
    ensures port.Some? ==> port.value != "" && All(IsNum, port.value)
    decreases |w|
  {
    hide Flatten, PortPieces;
    DeadHostStateStays(w[1..]);
    if w[0] == ']' {
      zone := "";
      port := BracketSound(w);
    } else {
      zone, port := ZoneSound(Zone, w[1..]);
      zone := [w[0]] + zone;
    }
  }

  lemma {:induction false} AddressSound(s: HostState, w: string)
      returns (address: string, zone: Option<string>, port: Option<string>)
    requires s.V6? || s.V6Start?
    requires HostAccepts(HostStateRun(s, w))
    ensures w == address + ZoneText(zone) + "]" + Flatten(PortPieces(port))
    ensures All(IsV6Char, address) && (s.V6Start? ==> address != "")
    ensures zone.Some? ==> zone.value != "" && All(IsZoneChar, zone.value)
    ensures port.Some? ==> port.value != "" && All(IsNum, port.value)
    decreases |w|
  {
    hide Flatten, PortPieces;
    DeadHostStateStays(w[1..]);
    assert w == [w[0]] + w[1..];
    if s.V6? && w[0] == ']' {
      address, zone := "", None;
      port := BracketSound(w);
    } else if s.V6? && w[0] == '%' {
      var z;
      z, port := ZoneSound(ZoneStart, w[1..]);
      address, zone := "", Some(z);
    } else {
      address, zone, port := AddressSound(V6, w[1..]);
      address := [w[0]] + address;
    }
  }

  lemma HostNameSound(w: string) returns (host: HostName, port: Option<string>)
    requires HostAccepts(HostStateRun(HostStart, w))
    ensures w == Flatten(HostPieces(host)) + Flatten(PortPieces(port)) && ValidHost(host)
    ensures port.Some? ==> port.value != "" && All(IsNum, port.value)
  {
    hide Flatten, PortPieces, HostPieces;
    DeadHostStateStays(w[1..]);
    assert w == [w[0]] + w[1..];
    if w[0] == '[' {
      var address, zone, p := AddressSound(V6Start, w[1..]);
      host, port := V6Literal(address, zone), p;
    } else {
      var name, p := RegNameSound(w[1..]);
      host, port := RegName([w[0]] + name), p;
    }
    PrintedHost(host, 0);
  }

  lemma {:induction false} UserinfoSound(s: HostState, w: string)
      returns (userinfo: string, host: HostName, port: Option<string>)
    requires s.Userinfo? || s.UserinfoStart?
    requires HostAccepts(HostStateRun(s, w))
    ensures w == userinfo + "@" + Flatten(HostPieces(host)) + Flatten(PortPieces(port)) && ValidHost(host)
    ensures All(IsUserinfoChar, userinfo)
    ensures port.Some? ==> port.value != "" && All(IsNum, port.value)
    decreases |w|
  {
    hide Flatten, PortPieces, HostPieces, ValidHost;
    DeadHostStateStays(w[1..]);
    assert w == [w[0]] + w[1..];
    if w[0] == '@' {
      userinfo := "";
      host, port := HostNameSound(w[1..]);
    } else {
      userinfo, host, port := UserinfoSound(Userinfo, w[1..]);
      userinfo := [w[0]] + userinfo;
    }
  }

  lemma PrintedAuthority(a: Authority)
    ensures Flatten(AuthorityPieces(a))
         == (if a.userinfo.Some? then a.userinfo.value + "@" else "")
            + Flatten(HostPieces(a.host)) + Flatten(PortPieces(a.port))
  {
    hide Flatten, PortPieces, HostPieces;
    var us := UserinfoPieces(a.userinfo);
    FlattenConcat(us, HostPieces(a.host));
    FlattenConcat(us + HostPieces(a.host), PortPieces(a.port));
    NoPieces(0);
    if a.userinfo.Some? {
      FieldAndDelimiter(UfUserinfo, a.userinfo.value, "@", 0);
    }
  }

  /** The authority loop accepts only well-formed authorities. */
  lemma AuthoritySound(foundAt: bool, w: string) returns (a: Authority)
    requires HostAccepts(HostStateRun(if foundAt then UserinfoStart else HostStart, w))
    ensures ValidAuthority(a) && w == Flatten(AuthorityPieces(a)) && a.userinfo.Some? == foundAt
  {
    hide Flatten, AuthorityPieces, HostStateRun, HostAccepts, ValidHost, All;
    if foundAt {
      var userinfo, host, port := UserinfoSound(UserinfoStart, w);
      a := Authority(Some(userinfo), host, port);
    } else {
      var host, port := HostNameSound(w);
      a := Authority(None, host, port);
    }
    PrintedAuthority(a);
  }
}
