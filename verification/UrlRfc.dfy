/** The language of the URL parser over the character sets of the standards instead of the parser's own
    classes: unreserved characters and sub-delimiters as in sections 2.2 and 2.3 of RFC 3986. */
module UrlRfc {
  import opened Wrappers
  import opened Ascii
  import opened UrlChars
  import opened UrlParser
  import opened UrlGrammar
  import opened UrlAcceptance

  // ----- the sets

  predicate Unreserved(c: char) { Letter(c) || Digit(c) || c in {'-', '.', '_', '~'} }

  predicate SubDelim(c: char) { c in {'!', '$', '&', '\'', '(', ')', '*', '+', ',', ';', '='} }

  /** userinfo of section 3.2.1, with '%' as a plain character. */
  predicate UserinfoSet(c: char) { Unreserved(c) || SubDelim(c) || c in {':', '%'} }

  /** A host name, which is stricter than reg-name of section 3.2.2: letters, digits, '-' and '.'. */
  predicate HostSet(c: char) { Letter(c) || Digit(c) || c in {'-', '.'} }

  predicate AddressSet(c: char) { HexDigit(c) || c in {':', '.'} }

  /** ZoneID of section 2 of RFC 6874, with '%' as a plain character. */
  predicate ZoneSet(c: char) { Unreserved(c) || c == '%' }

  /** Every visible ASCII character but these two: laxer than pchar of section 3.3. */
  predicate PathSet(c: char) { 0x21 <= c as int <= 0x7E && c !in {'#', '?'} }

  predicate QuerySet(c: char) { 0x21 <= c as int <= 0x7E && c != '#' }

  predicate FragmentSet(c: char) { 0x21 <= c as int <= 0x7E }

  // ----- the parser's classes are these sets

  lemma LettersAre(c: char)
    ensures IsAlpha(c) <==> Letter(c)
  {
  }

  lemma DigitsAre(c: char)
    ensures (IsNum(c) <==> Digit(c)) && (IsHex(c) <==> HexDigit(c))
  {
  }

  /** Every class of the parser, for every character. */
  lemma ClassesAre(c: char)
    ensures IsAlpha(c) <==> Letter(c)
    ensures IsNum(c) <==> Digit(c)
    ensures IsHex(c) <==> HexDigit(c)
    ensures IsMark(c) <==> c in {'-', '_', '.', '!', '~', '*', '\'', '(', ')'}
    ensures IsUserinfoChar(c) <==> UserinfoSet(c)
    ensures IsHostChar(c) <==> HostSet(c)
    ensures IsV6Char(c) <==> AddressSet(c)
    ensures IsZoneChar(c) <==> ZoneSet(c)
    ensures IsServerChar(c) <==> UserinfoSet(c) || c in {'[', ']', '@'}
    ensures IsUrlChar(c) <==> PathSet(c)
    ensures IsQueryChar(c) <==> QuerySet(c)
    ensures IsFragmentChar(c) <==> FragmentSet(c)
  {
    LettersAre(c);
    DigitsAre(c);
    hide IsAlpha, Letter, IsNum, Digit;
  }

  /** Host names are the unreserved characters but '_' and '~'; userinfo is exactly the standard's. */
  lemma SetsCompare(c: char)
    ensures IsHostChar(c) <==> Unreserved(c) && c != '_' && c != '~'
    ensures IsUserinfoChar(c) <==> Unreserved(c) || SubDelim(c) || c == ':' || c == '%'
  {
    ClassesAre(c);
    hide Letter, Digit, IsHostChar, IsUserinfoChar;
    LetterOrDigit(c);
  }

  lemma LetterOrDigit(c: char)
    ensures c == '_' || c == '~' ==> !Letter(c) && !Digit(c)
  {
  }

  // ----- the grammar over the sets

  predicate WellFormedHost(h: HostName) {
    match h
    case RegName(name) => name != "" && All(HostSet, name)
    case V6Literal(address, zone) =>
      && address != "" && All(AddressSet, address)
      && (zone.Some? ==> zone.value != "" && All(ZoneSet, zone.value))
  }

  predicate WellFormedAuthority(a: Authority) {
    && (a.userinfo.Some? ==> All(UserinfoSet, a.userinfo.value))
    && WellFormedHost(a.host)
    && (a.port.Some? ==> a.port.value != "" && All(Digit, a.port.value))
  }

  predicate WellFormedTail(t: Tail) {
    && (t.query.Some? ==> All(QuerySet, t.query.value))
    && (t.fragment.Some? ==>
          var f := t.fragment.value;
          f.hashes > 0 && All(FragmentSet, f.text) && (f.text != "" ==> f.text[0] != '#'))
  }

  predicate WellFormed(u: Url, isConnect: bool) {
    && All(PathSet, u.path) && WellFormedTail(u.tail)
    && (u.authority.Some? ==>
          && WellFormedAuthority(u.authority.value)
          && (u.path != "" ==> u.path[0] == '/')
          && (u.path == "" && u.tail.fragment.Some? ==> u.tail.query.Some?))
    && if isConnect then
         && u.scheme.None? && u.path == "" && u.authority.Some? && u.authority.value.port.Some?
         && (u.authority.value.userinfo.Some? ==> u.authority.value.userinfo.value == "")
         && (u.tail.query.Some? ==> u.tail.query.value == "")
         && (u.tail.fragment.Some? ==> u.tail.fragment.value.text == "")
       else if u.authority.Some? then
         u.scheme.Some? && u.scheme.value != "" && All(Letter, u.scheme.value)
       else
         u.scheme.None? && u.path != "" && (u.path[0] == '/' || u.path[0] == '*')
  }

  lemma TextsAre(s: string)
    ensures All(IsAlpha, s) <==> All(Letter, s)
    ensures All(IsNum, s) <==> All(Digit, s)
    ensures All(IsUserinfoChar, s) <==> All(UserinfoSet, s)
    ensures All(IsHostChar, s) <==> All(HostSet, s)
    ensures All(IsV6Char, s) <==> All(AddressSet, s)
    ensures All(IsZoneChar, s) <==> All(ZoneSet, s)
    ensures All(IsUrlChar, s) <==> All(PathSet, s)
    ensures All(IsQueryChar, s) <==> All(QuerySet, s)
    ensures All(IsFragmentChar, s) <==> All(FragmentSet, s)
  {
    forall i | 0 <= i < |s|
      ensures (IsAlpha(s[i]) <==> Letter(s[i])) && (IsNum(s[i]) <==> Digit(s[i]))
      ensures (IsUserinfoChar(s[i]) <==> UserinfoSet(s[i])) && (IsHostChar(s[i]) <==> HostSet(s[i]))
      ensures (IsV6Char(s[i]) <==> AddressSet(s[i])) && (IsZoneChar(s[i]) <==> ZoneSet(s[i]))
      ensures (IsUrlChar(s[i]) <==> PathSet(s[i])) && (IsQueryChar(s[i]) <==> QuerySet(s[i]))
      ensures IsFragmentChar(s[i]) <==> FragmentSet(s[i])
    {
      ClassesAre(s[i]);
    }
    hide IsAlpha, Letter, IsNum, Digit, IsUserinfoChar, UserinfoSet, IsHostChar, HostSet, IsV6Char, AddressSet,
         IsZoneChar, ZoneSet, IsUrlChar, PathSet, IsQueryChar, QuerySet, IsFragmentChar, FragmentSet;
  }

  lemma SameAuthority(a: Authority)
    ensures ValidAuthority(a) <==> WellFormedAuthority(a)
  {
    hide All;
    if a.userinfo.Some? {
      TextsAre(a.userinfo.value);
    }
    if a.port.Some? {
      TextsAre(a.port.value);
    }
    match a.host {
      case RegName(name) => TextsAre(name);
      case V6Literal(address, zone) =>
        TextsAre(address);
        if zone.Some? {
          TextsAre(zone.value);
        }
    }
  }

  lemma SameTail(t: Tail)
    ensures ValidTail(t) <==> WellFormedTail(t)
  {
    hide All;
    if t.query.Some? {
      TextsAre(t.query.value);
    }
    if t.fragment.Some? {
      TextsAre(t.fragment.value.text);
    }
  }

  /** The grammar over the parser's classes is the grammar over the sets. */
  lemma SameGrammar(u: Url, isConnect: bool)
    ensures Valid(u, isConnect) <==> WellFormed(u, isConnect)
  {
    hide All, ValidAuthority, WellFormedAuthority, ValidTail, WellFormedTail;
    TextsAre(u.path);
    SameTail(u.tail);
    if u.scheme.Some? {
      TextsAre(u.scheme.value);
    }
    if u.authority.Some? {
      SameAuthority(u.authority.value);
    }
    NoText();
  }

  lemma NoText()
    ensures All(PathSet, "") && All(IsUrlChar, "")
  {
  }

  /** A buffer whose scheme and authority end within the 16-bit range is accepted if and only if it is
      the printed form of a well-formed tree whose port fits 16 bits. */
  lemma AcceptsWellFormed(buf: string, isConnect: bool, before: UrlInfo)
    requires HeadEnd(buf, isConnect) <= 0xFFFF
    ensures Parse(buf, isConnect, before).ok
       <==> exists u :: WellFormed(u, isConnect) && Print(u) == buf && PortNumber(u) <= 0xffff
  {
    hide Parse, Valid, WellFormed, Print, PortNumber, HeadEnd;
    ExactAcceptance(buf, isConnect, before);
    if u :| Valid(u, isConnect) && Print(u) == buf && PortNumber(u) <= 0xffff {
      SameGrammar(u, isConnect);
    }
    if u :| WellFormed(u, isConnect) && Print(u) == buf && PortNumber(u) <= 0xffff {
      SameGrammar(u, isConnect);
    }
  }
}
