/** The URL parser: two character automata, and the loops that turn runs of states into slices.

    The automata (`NextState`, `NextHostState`) and the effect of one character (`ScanChar`,
    `HostChar`) are functions; `ParseUrl`, `ParseHost` and `ConvertPort` are the source's loops,
    each proved to compute the fold of its step over the buffer.  Offsets and lengths are 16-bit
    and wrap as the casts in the source do. */
module UrlParser {
  import opened Wrappers
  import opened UrlChars

  // ----- data model

  datatype Field = UfSchema | UfHost | UfPort | UfPath | UfQuery | UfFragment | UfUserinfo

  datatype Slice = Slice(off: int, len: int)

  /** struct c_http_parser_url as a value: a field never written reads as the zeroed slice. */
  datatype UrlInfo = UrlInfo(fields: set<Field>, port: int, data: map<Field, Slice>)

  function At(data: map<Field, Slice>, f: Field): Slice {
    if f in data then data[f] else Slice(0, 0)
  }

  function Wrap16(n: int): int { n % 0x1_0000 }

  /** The value of a C `char`, which is signed. */
  function SignedChar(c: char): int {
    if c as int < 128 then c as int else c as int - 256
  }

  // ----- the whole-URL automaton

  datatype State =
    | Dead | Start | Schema | SchemaSlash | SchemaSlashSlash | ServerStart | Server | ServerWithAt
    | Path | QueryStart | Query | FragmentStart | Fragment

  function ServerNext(ch: char): State {
    if ch == '/' then Path
    else if ch == '?' then QueryStart
    else if ch == '@' then ServerWithAt
    else if IsUserinfoChar(ch) || ch == '[' || ch == ']' then Server
    else Dead
  }

  /** parse_url_char. */
  function NextState(s: State, ch: char): State {
    if ch == ' ' || ch == '\r' || ch == '\n' || ch == '\t' || ch == '\U{000C}' then Dead
    else match s
      case Start => if ch == '/' || ch == '*' then Path else if IsAlpha(ch) then Schema else Dead
      case Schema => if IsAlpha(ch) then Schema else if ch == ':' then SchemaSlash else Dead
      case SchemaSlash => if ch == '/' then SchemaSlashSlash else Dead
      case SchemaSlashSlash => if ch == '/' then ServerStart else Dead
      case ServerWithAt => if ch == '@' then Dead else ServerNext(ch)
      case ServerStart => ServerNext(ch)
      case Server => ServerNext(ch)
      case Path =>
        if IsUrlChar(ch) then Path else if ch == '?' then QueryStart else if ch == '#' then FragmentStart else Dead
      case QueryStart =>
        if IsUrlChar(ch) || ch == '?' then Query else if ch == '#' then FragmentStart else Dead
      case Query =>
        if IsUrlChar(ch) || ch == '?' then Query else if ch == '#' then FragmentStart else Dead
      case FragmentStart =>
        if IsUrlChar(ch) || ch == '?' then Fragment else if ch == '#' then FragmentStart else Dead
      case Fragment => if IsUrlChar(ch) || ch == '?' || ch == '#' then Fragment else Dead
      case Dead => Dead
  }

  /** The field a state writes to; delimiter states write to none. */
  function FieldOf(s: State): Option<Field> {
    match s
    case Schema => Some(UfSchema)
    case Server => Some(UfHost)
    case ServerWithAt => Some(UfHost)
    case Path => Some(UfPath)
    case Query => Some(UfQuery)
    case Fragment => Some(UfFragment)
    case _ => None
  }

  /** The variables of the first loop. */
  datatype Scan = Scan(s: State, oldUf: Option<Field>, foundAt: bool, fields: set<Field>, data: map<Field, Slice>)

  /** One iteration of the first loop at position `pos`; after Dead the loop has returned. */
  function ScanChar(sc: Scan, pos: nat, ch: char): Scan {
    if sc.s.Dead? then sc else Recorded(sc, NextState(sc.s, ch), pos)
  }

  /** The field of the new state grows or starts. */
  function Recorded(sc: Scan, s: State, pos: nat): Scan {
    match FieldOf(s)
    case None => sc.(s := s)
    case Some(uf) =>
      var sc1 := sc.(s := s, foundAt := sc.foundAt || s.ServerWithAt?);
      if sc.oldUf == Some(uf) then
        var slice := At(sc.data, uf);
        sc1.(data := sc.data[uf := slice.(len := Wrap16(slice.len + 1))])
      else
        sc1.(oldUf := Some(uf), fields := sc.fields + {uf}, data := sc.data[uf := Slice(Wrap16(pos), 1)])
  }

  function ScanRun(sc: Scan, pos: nat, s: string): Scan
    decreases |s|
  {
    if s == "" then sc else ScanRun(ScanChar(sc, pos, s[0]), pos + 1, s[1..])
  }

  function InitialScan(isConnect: bool, data: map<Field, Slice>): Scan {
    Scan(if isConnect then ServerStart else Start, None, false, {}, data)
  }

  // ----- the authority automaton

  datatype HostState =
    | HostDead | UserinfoStart | Userinfo | HostStart | V6Start | Host | V6 | V6End
    | ZoneStart | Zone | PortStart | Port

  /** c_http_parse_host_char. */
  function NextHostState(s: HostState, ch: char): HostState {
    match s
    case UserinfoStart => if ch == '@' then HostStart else if IsUserinfoChar(ch) then Userinfo else HostDead
    case Userinfo => if ch == '@' then HostStart else if IsUserinfoChar(ch) then Userinfo else HostDead
    case HostStart => if ch == '[' then V6Start else if IsHostChar(ch) then Host else HostDead
    case Host => if IsHostChar(ch) then Host else if ch == ':' then PortStart else HostDead
    case V6End => if ch == ':' then PortStart else HostDead
    case V6 =>
      if ch == ']' then V6End else if IsV6Char(ch) then V6 else if ch == '%' then ZoneStart else HostDead
    case V6Start => if IsV6Char(ch) then V6 else HostDead
    case Zone => if ch == ']' then V6End else if IsZoneChar(ch) then Zone else HostDead
    case ZoneStart => if IsZoneChar(ch) then Zone else HostDead
    case Port => if IsNum(ch) then Port else HostDead
    case PortStart => if IsNum(ch) then Port else HostDead
    case HostDead => HostDead
  }

  /** The states in which an authority may end. */
  predicate HostAccepts(s: HostState) { s.Host? || s.V6End? || s.Port? }

  datatype HostScan = HostScan(s: HostState, fields: set<Field>, data: map<Field, Slice>)

  function Grow(data: map<Field, Slice>, f: Field): map<Field, Slice> {
    data[f := At(data, f).(len := Wrap16(At(data, f).len + 1))]
  }

  /** One iteration of the authority loop. */
  function HostChar(h: HostScan, pos: nat, ch: char): HostScan {
    if h.s.HostDead? then h else
    var s := NextHostState(h.s, ch);
    match s
    case Host =>
      var data := if h.s != Host then h.data[UfHost := At(h.data, UfHost).(off := Wrap16(pos))] else h.data;
      HostScan(s, h.fields, Grow(data, UfHost))
    case V6 =>
      var data := if h.s != V6 then h.data[UfHost := At(h.data, UfHost).(off := Wrap16(pos))] else h.data;
      HostScan(s, h.fields, Grow(data, UfHost))
    case ZoneStart => HostScan(s, h.fields, Grow(h.data, UfHost))
    case Zone => HostScan(s, h.fields, Grow(h.data, UfHost))
    case Port =>
      if h.s != Port then HostScan(s, h.fields + {UfPort}, h.data[UfPort := Slice(Wrap16(pos), 1)])
      else HostScan(s, h.fields, Grow(h.data, UfPort))
    case Userinfo =>
      if h.s != Userinfo then HostScan(s, h.fields + {UfUserinfo}, h.data[UfUserinfo := Slice(Wrap16(pos), 1)])
      else HostScan(s, h.fields, Grow(h.data, UfUserinfo))
    case _ => h.(s := s)
  }

  function HostRun(h: HostScan, pos: nat, s: string): HostScan
    decreases |s|
  {
    if s == "" then h else HostRun(HostChar(h, pos, s[0]), pos + 1, s[1..])
  }

  function InitialHostScan(foundAt: bool, fields: set<Field>, data: map<Field, Slice>): HostScan {
    HostScan(if foundAt then UserinfoStart else HostStart, fields,
             data[UfHost := At(data, UfHost).(len := 0)])
  }

  // ----- port conversion

  /** The decimal loop, which gives up as soon as the value leaves 16 bits.  `v` is an unsigned
      long, so a negative intermediate is a huge one and is rejected as well. */
  function PortLoop(v: int, s: string): Option<int>
    decreases |s|
  {
    if s == "" then Some(v) else
    var v1 := v * 10 + (SignedChar(s[0]) - '0' as int);
    if v1 < 0 || v1 > 0xffff then None else PortLoop(v1, s[1..])
  }

  // ----- the whole parse

  datatype Outcome = Outcome(ok: bool, info: UrlInfo)

  predicate InBuffer(slice: Slice, buf: string) {
    0 <= slice.off && 0 <= slice.len && slice.off + slice.len <= |buf|
  }

  function Text(buf: string, slice: Slice): string
    requires InBuffer(slice, buf)
  {
    buf[slice.off..slice.off + slice.len]
  }

  function PortStage(buf: string, info: UrlInfo): Outcome {
    if UfPort in info.fields && InBuffer(At(info.data, UfPort), buf) then
      match PortLoop(0, Text(buf, At(info.data, UfPort)))
      case None => Outcome(false, info)
      case Some(v) => Outcome(true, info.(port := v))
    else Outcome(true, info)
  }

  function HostStage(buf: string, foundAt: bool, info: UrlInfo): Outcome {
    if UfHost in info.fields && InBuffer(At(info.data, UfHost), buf) then
      var h := HostRun(InitialHostScan(foundAt, info.fields, info.data), At(info.data, UfHost).off,
                       Text(buf, At(info.data, UfHost)));
      Outcome(HostAccepts(h.s), UrlInfo(h.fields, info.port, h.data))
    else Outcome(true, info)
  }

  /** What c_http_parser_parse_url returns (`ok` for 0) and leaves in the record. */
  function Parse(buf: string, isConnect: bool, before: UrlInfo): Outcome {
    if buf == "" then Outcome(false, before) else
    var sc := ScanRun(InitialScan(isConnect, before.data), 0, buf);
    var scanned := UrlInfo(sc.fields, 0, sc.data);
    if sc.s.Dead? || (UfSchema in sc.fields && UfHost !in sc.fields) then Outcome(false, scanned) else
    var hosted := HostStage(buf, sc.foundAt, scanned);
    if !hosted.ok || (isConnect && hosted.info.fields != {UfHost, UfPort}) then Outcome(false, hosted.info) else
    PortStage(buf, hosted.info)
  }

  // ----- slices stay inside the buffer, whatever the 16-bit wrap-around does

  ghost predicate Inside(data: map<Field, Slice>, f: Field, pos: nat) {
    0 <= At(data, f).off && 0 <= At(data, f).len && At(data, f).off + At(data, f).len <= pos
  }

  ghost predicate ScanInside(sc: Scan, pos: nat) {
    && (forall f <- sc.fields :: Inside(sc.data, f, pos))
    && (sc.oldUf.Some? ==> sc.oldUf.value in sc.fields)
  }

  lemma ScanCharInside(sc: Scan, pos: nat, ch: char)
    requires ScanInside(sc, pos)
    ensures ScanInside(ScanChar(sc, pos, ch), pos + 1)
  {
    hide NextState;
  }

  /** The authority loop keeps the port slice behind the position it has reached. */
  ghost predicate PortInside(h: HostScan, pos: nat) {
    && (UfPort in h.fields ==> Inside(h.data, UfPort, pos))
    && (h.s.Port? ==> UfPort in h.fields)
  }

  lemma {:induction false} HostRunInside(h: HostScan, pos: nat, s: string)
    requires PortInside(h, pos)
    ensures PortInside(HostRun(h, pos, s), pos + |s|)
    decreases |s|
  {
    if s != "" {
      HostRunInside(HostChar(h, pos, s[0]), pos + 1, s[1..]);
    }
  }

  // ----- the record and the loops

  class UrlRecord {
    var fieldSet: set<Field>
    var port: int
    var fieldData: map<Field, Slice>

    /** c_http_parser_url_init. */
    constructor ()
      ensures Info() == UrlInfo({}, 0, map[])
    {
      fieldSet, port, fieldData := {}, 0, map[];
    }

    ghost function Info(): UrlInfo
      reads this
    {
      UrlInfo(fieldSet, port, fieldData)
    }

    /** The switch of the authority loop: updates the field the new state belongs to. */
    method RecordHostChar(s: HostState, newS: HostState, ghost ch: char, p: nat)
      requires s != HostDead && newS == NextHostState(s, ch) && newS != HostDead
      modifies this`fieldSet, this`fieldData
      ensures HostScan(newS, fieldSet, fieldData) == HostChar(old(HostScan(s, fieldSet, fieldData)), p, ch)
    {
      match newS {
        case Host =>
          if s != Host {
            fieldData := fieldData[UfHost := At(fieldData, UfHost).(off := Wrap16(p))];
          }
          fieldData := Grow(fieldData, UfHost);
        case V6 =>
          if s != V6 {
            fieldData := fieldData[UfHost := At(fieldData, UfHost).(off := Wrap16(p))];
          }
          fieldData := Grow(fieldData, UfHost);
        case ZoneStart => fieldData := Grow(fieldData, UfHost);
        case Zone => fieldData := Grow(fieldData, UfHost);
        case Port =>
          if s != Port {
            fieldData := fieldData[UfPort := Slice(Wrap16(p), 0)];
            fieldSet := fieldSet + {UfPort};
          }
          fieldData := Grow(fieldData, UfPort);
        case Userinfo =>
          if s != Userinfo {
            fieldData := fieldData[UfUserinfo := Slice(Wrap16(p), 0)];
            fieldSet := fieldSet + {UfUserinfo};
          }
          fieldData := Grow(fieldData, UfUserinfo);
        case _ =>
      }
    }

    /** c_http_parse_host: refines the authority slice into userinfo, host and port. */
    method ParseHost(buf: string, foundAt: bool) returns (ok: bool)
      requires UfHost in fieldSet && InBuffer(At(fieldData, UfHost), buf)
      modifies this
      ensures Outcome(ok, Info()) == HostStage(buf, foundAt, old(Info()))
    {
      hide HostRun, HostChar, NextHostState;
      var slice := At(fieldData, UfHost);
      var end := slice.off + slice.len;
      fieldData := fieldData[UfHost := slice.(len := 0)];
      var s := if foundAt then UserinfoStart else HostStart;
      var p := slice.off;
      ghost var all := old(HostRun(InitialHostScan(foundAt, fieldSet, fieldData), slice.off, Text(buf, slice)));
      while p < end
        invariant slice.off <= p <= end
        invariant port == old(port) && s != HostDead
        invariant HostRun(HostScan(s, fieldSet, fieldData), p, buf[p..end]) == all
      {
        ghost var here := HostScan(s, fieldSet, fieldData);
        HostRunHead(here, p, buf[p..end]);
        assert buf[p..end][0] == buf[p] && buf[p..end][1..] == buf[p + 1..end];
        var newS := NextHostState(s, buf[p]);
        if newS == HostDead {
          DeadHostChar(here, p, buf[p]);
          DeadHostStays(HostChar(here, p, buf[p]), p + 1, buf[p + 1..end]);
          return false;
        }
        RecordHostChar(s, newS, buf[p], p);
        s := newS;
        p := p + 1;
      }
      HostRunEnd(HostScan(s, fieldSet, fieldData), p);
      assert buf[p..end] == "";
      match s {
        case HostStart => return false;
        case V6Start => return false;
        case V6 => return false;
        case ZoneStart => return false;
        case Zone => return false;
        case PortStart => return false;
        case Userinfo => return false;
        case UserinfoStart => return false;
        case _ => return true;
      }
    }

    /** The decimal conversion at the end of c_http_parser_parse_url. */
    method ConvertPort(buf: string) returns (ok: bool)
      requires UfPort in fieldSet && InBuffer(At(fieldData, UfPort), buf)
      modifies this`port
      ensures Outcome(ok, Info()) == PortStage(buf, old(Info()))
    {
      var slice := At(fieldData, UfPort);
      var end := slice.off + slice.len;
      var v := 0;
      var p := slice.off;
      while p < end
        invariant slice.off <= p <= end
        invariant PortLoop(v, buf[p..end]) == PortLoop(0, Text(buf, slice))
        invariant 0 <= v <= 0xffff && port == old(port)
      {
        assert buf[p..end][1..] == buf[p + 1..end];
        v := v * 10 + (SignedChar(buf[p]) - '0' as int);
        if v < 0 || v > 0xffff {
          return false;
        }
        p := p + 1;
      }
      port := v;
      return true;
    }

    /** The switch of the first loop and what follows it: updates the field of the new state. */
    method RecordChar(s: State, oldUf: Option<Field>, foundAt: bool, p: nat)
        returns (newUf: Option<Field>, newAt: bool)
      modifies this`fieldSet, this`fieldData
      ensures forall before: State ::
                Scan(s, newUf, newAt, fieldSet, fieldData)
                == Recorded(Scan(before, oldUf, foundAt, old(fieldSet), old(fieldData)), s, p)
    {
      newUf, newAt := oldUf, foundAt;
      if s == ServerWithAt {
        newAt := true;
      }
      var field := FieldOf(s);
      if field.Some? {
        var uf := field.value;
        if oldUf == Some(uf) {
          fieldData := Grow(fieldData, uf);
        } else {
          fieldData := fieldData[uf := Slice(Wrap16(p), 1)];
          fieldSet := fieldSet + {uf};
          newUf := Some(uf);
        }
      }
    }

    /** The first loop of c_http_parser_parse_url. */
    method ScanFields(buf: string, isConnect: bool) returns (ok: bool, foundAt: bool)
      modifies this`fieldSet, this`fieldData
      ensures var sc := ScanRun(InitialScan(isConnect, old(fieldData)), 0, buf);
              && ok == !sc.s.Dead? && fieldSet == sc.fields && fieldData == sc.data
              && (ok ==> foundAt == sc.foundAt && ScanInside(sc, |buf|))
    {
      fieldSet := {};
      var s := if isConnect then ServerStart else Start;
      var oldUf: Option<Field> := None;
      foundAt := false;
      var p := 0;
      ghost var all := ScanRun(InitialScan(isConnect, fieldData), 0, buf);
      assert buf[0..] == buf;
      while p < |buf|
        invariant 0 <= p <= |buf| && s != Dead
        invariant ScanRun(Scan(s, oldUf, foundAt, fieldSet, fieldData), p, buf[p..]) == all
        invariant ScanInside(Scan(s, oldUf, foundAt, fieldSet, fieldData), p)
      {
        ghost var next := ScanChar(Scan(s, oldUf, foundAt, fieldSet, fieldData), p, buf[p]);
        ScanCharInside(Scan(s, oldUf, foundAt, fieldSet, fieldData), p, buf[p]);
        NeverRestarts(s, buf[p]);
        hide NextState, Recorded;
        s := NextState(s, buf[p]);
        assert s != Start;  // "Unexpected state" is unreachable
        assert buf[p..][1..] == buf[p + 1..];
        if s == Dead {
          DeadScanStays(next, p + 1, buf[p + 1..]);
          return false, foundAt;
        }
        oldUf, foundAt := RecordChar(s, oldUf, foundAt, p);
        p := p + 1;
      }
      return true, foundAt;
    }

    /** c_http_parser_parse_url, for any buffer; the source's two internal assertions are the
        assertion in `ScanFields` and the precondition of `ConvertPort`. */
    method ParseUrl(buf: string, isConnect: bool) returns (ok: bool)
      modifies this
      ensures Outcome(ok, Info()) == Parse(buf, isConnect, old(Info()))
    {
      hide ScanRun, HostRun, PortLoop;
      if |buf| == 0 {
        return false;
      }
      port := 0;
      ghost var sc := ScanRun(InitialScan(isConnect, fieldData), 0, buf);
      ScanSetsNoPort(InitialScan(isConnect, fieldData), 0, buf);
      var live, foundAt := ScanFields(buf, isConnect);
      if !live || (UfSchema in fieldSet && UfHost !in fieldSet) {
        return false;
      }
      if UfHost in fieldSet {
        assert Inside(fieldData, UfHost, |buf|);
        HostRunInside(InitialHostScan(foundAt, fieldSet, fieldData), At(fieldData, UfHost).off,
                      Text(buf, At(fieldData, UfHost)));
        ok := ParseHost(buf, foundAt);
        if !ok {
          return false;
        }
      }
      if isConnect && fieldSet != {UfHost, UfPort} {
        return false;
      }
      if UfPort in fieldSet {
        assert InBuffer(At(fieldData, UfPort), buf);  // "Port number overflow" is unreachable
        ok := ConvertPort(buf);
        return ok;
      }
      return true;
    }
  }

  lemma NeverRestarts(s: State, ch: char)
    ensures NextState(s, ch) != Start
  {
  }

  lemma HostRunHead(h: HostScan, pos: nat, s: string)
    requires s != ""
    ensures HostRun(h, pos, s) == HostRun(HostChar(h, pos, s[0]), pos + 1, s[1..])
  {
  }

  lemma HostRunEnd(h: HostScan, pos: nat)
    ensures HostRun(h, pos, "") == h
  {
  }

  lemma DeadHostChar(h: HostScan, pos: nat, ch: char)
    requires h.s != HostDead && NextHostState(h.s, ch) == HostDead
    ensures HostChar(h, pos, ch) == h.(s := HostDead)
  {
  }

  lemma {:induction false} DeadHostStays(h: HostScan, pos: nat, s: string)
    requires h.s.HostDead?
    ensures HostRun(h, pos, s) == h
    decreases |s|
  {
    if s != "" {
      DeadHostStays(h, pos + 1, s[1..]);
    }
  }

  lemma {:induction false} DeadScanStays(sc: Scan, pos: nat, s: string)
    requires sc.s.Dead?
    ensures ScanRun(sc, pos, s) == sc
    decreases |s|
  {
    if s != "" {
      DeadScanStays(sc, pos + 1, s[1..]);
    }
  }

  /** The first loop never sets the port field; only the authority loop does. */
  lemma {:induction false} ScanSetsNoPort(sc: Scan, pos: nat, s: string)
    requires UfPort !in sc.fields
    ensures UfPort !in ScanRun(sc, pos, s).fields
    decreases |s|
  {
    if s != "" {
      ScanSetsNoPort(ScanChar(sc, pos, s[0]), pos + 1, s[1..]);
    }
  }
}
