/**
 * The login response's fields and the raw cookie string built from them, read back by the
 * application/x-www-form-urlencoded parser of section 5.1 of the WHATWG URL Standard. Strings are byte
 * strings; UTF-8 decoding of a valid value does not change it.
 */
module Cookie {
  import opened Bytes

  const AMPERSAND: byte := '&' as int
  const PERCENT: byte := '%' as int
  const PLUS: byte := '+' as int
  const EQUALS: byte := '=' as int
  const SPACE: byte := ' ' as int

  /** The bytes of an ASCII text. */
  function Ascii(text: string): bytes
    requires forall i | 0 <= i < |text| :: text[i] as int < 128
  {
    seq(|text|, i requires 0 <= i < |text| => var b: byte := text[i] as int; b)
  }

  // ----- Escaping -----

  /** The bytes url.QueryEscape leaves alone: letters, digits, '-', '.', '_' and '~'. */
  predicate Unreserved(b: byte) {
    || 'a' as int <= b <= 'z' as int || 'A' as int <= b <= 'Z' as int || '0' as int <= b <= '9' as int
    || b == '-' as int || b == '.' as int || b == '_' as int || b == '~' as int
  }

  function HexDigit(n: int): byte
    requires 0 <= n < 16
  {
    if n < 10 then 48 + n else 55 + n
  }

  function HexValue(b: byte): Option<int> {
    if 48 <= b <= 57 then Some(b - 48)
    else if 65 <= b <= 70 then Some(b - 55)
    else if 97 <= b <= 102 then Some(b - 87)
    else None
  }

  function EscapedByte(b: byte): bytes {
    if b == SPACE then [PLUS]
    else if Unreserved(b) then [b]
    else [PERCENT, HexDigit(b / 16), HexDigit(b % 16)]
  }

  /** url.QueryEscape. */
  function QueryEscape(s: bytes): bytes {
    if s == [] then [] else EscapedByte(s[0]) + QueryEscape(s[1..])
  }

  // ----- Parsing -----

  /** Percent-decoding, after each '+' has become a space. */
  function Decode(s: bytes): bytes {
    if s == [] then []
    else if s[0] == PLUS then [SPACE] + Decode(s[1..])
    else if s[0] == PERCENT && |s| >= 3 && HexValue(s[1]).Some? && HexValue(s[2]).Some? then
      [16 * HexValue(s[1]).value + HexValue(s[2]).value] + Decode(s[3..])
    else [s[0]] + Decode(s[1..])
  }

  /** Percent-decoding as section 5.1 of the WHATWG URL Standard has it, byte by byte. */
  lemma DecodeByBytes(s: bytes)
    ensures s == [] ==> Decode(s) == []
    ensures s != [] && s[0] == 0x2B ==> Decode(s) == [0x20] + Decode(s[1..])
    ensures |s| >= 3 && s[0] == 0x25 && HexValue(s[1]).Some? && HexValue(s[2]).Some? ==>
              Decode(s) == [16 * HexValue(s[1]).value + HexValue(s[2]).value] + Decode(s[3..])
    ensures s != [] && s[0] != 0x2B && !(|s| >= 3 && s[0] == 0x25 && HexValue(s[1]).Some? && HexValue(s[2]).Some?) ==>
              Decode(s) == [s[0]] + Decode(s[1..])
  {
  }

  /** The hexadecimal digits of either case, and nothing else, have a value. */
  lemma HexDigits(v: nat, b: byte)
    ensures v < 16 ==> HexValue("0123456789ABCDEF"[v] as int) == Some(v) && HexValue("0123456789abcdef"[v] as int) == Some(v)
    ensures HexValue(b).Some? <==>
              || '0' as int <= b <= '9' as int || 'A' as int <= b <= 'F' as int || 'a' as int <= b <= 'f' as int
  {
  }

  /** The bytes before the first separator, and the bytes behind it if there is one. */
  function Cut(s: bytes, separator: byte): (r: (bytes, Option<bytes>))
    ensures r.1.Some? ==> |r.1.value| < |s|
  {
    if s == [] then ([], None)
    else if s[0] == separator then ([], Some(s[1..]))
    else
      var (before, after) := Cut(s[1..], separator);
      ([s[0]] + before, after)
  }

  datatype Field = Field(name: bytes, value: bytes)

  /** Splits at '&', drops empty pieces, splits each piece at the first '=' and decodes both halves. */
  function ParseForm(s: bytes): seq<Field>
    decreases |s|
  {
    var (piece, after) := Cut(s, AMPERSAND);
    var here :=
      if piece == [] then []
      else
        var (name, value) := Cut(piece, EQUALS);
        [Field(Decode(name), if value.Some? then Decode(value.value) else [])];
    if after.None? then here else here + ParseForm(after.value)
  }

  // ----- The cookie -----

  const AUTHCOOKIE: bytes := [97, 117, 116, 104, 99, 111, 111, 107, 105, 101]
  const PORTAL: bytes := [112, 111, 114, 116, 97, 108]
  const USER: bytes := [117, 115, 101, 114]
  const DOMAIN: bytes := [100, 111, 109, 97, 105, 110]
  const PREFERRED_IP: bytes := [112, 114, 101, 102, 101, 114, 114, 101, 100, 45, 105, 112]
  const COMPUTER: bytes := [99, 111, 109, 112, 117, 116, 101, 114]

  const NULL_TEXT: bytes := [40, 110, 117, 108, 108, 41]
  const MINUS_ONE: bytes := [45, 49]

  datatype AuthCookie = AuthCookie(
    authCookie: bytes,
    persistentCookie: bytes,
    portal: bytes,
    user: bytes,
    domain: bytes,
    preferredIp: bytes,
    computer: bytes,
    rawCookie: bytes)

  /** A positional argument; a missing one, "(null)" and "-1" count as empty. */
  function Argument(args: seq<bytes>, i: nat): bytes {
    if i < |args| && args[i] != NULL_TEXT && args[i] != MINUS_ONE then args[i] else []
  }

  /** What counts as a missing argument. */
  lemma ArgumentIs(args: seq<bytes>, i: nat)
    ensures i >= |args| ==> Argument(args, i) == []
    ensures i < |args| && (args[i] == Ascii("(null)") || args[i] == Ascii("-1")) ==> Argument(args, i) == []
    ensures i < |args| && args[i] != Ascii("(null)") && args[i] != Ascii("-1") ==> Argument(args, i) == args[i]
  {
    assert Ascii("(null)") == NULL_TEXT && Ascii("-1") == MINUS_ONE;
  }

  /** The names of the cookie's fields. */
  lemma NamesAre()
    ensures AUTHCOOKIE == Ascii("authcookie") && PORTAL == Ascii("portal") && USER == Ascii("user")
    ensures DOMAIN == Ascii("domain") && PREFERRED_IP == Ascii("preferred-ip") && COMPUTER == Ascii("computer")
  {
  }

  /** The value a form gives for a name; a form without the name gives the empty one. */
  function Get(form: seq<Field>, name: bytes): bytes {
    if form == [] then [] else if form[0].name == name then form[0].value else Get(form[1..], name)
  }

  lemma GetCons(f: Field, form: seq<Field>, name: bytes)
    ensures Get([f] + form, name) == if f.name == name then f.value else Get(form, name)
  {
    assert ([f] + form)[1..] == form;
  }

  lemma NonEmptyCons(fields: seq<Field>)
    requires fields != []
    ensures NonEmpty(fields) == if fields[0].value != [] then [fields[0]] + NonEmpty(fields[1..]) else NonEmpty(fields[1..])
  {
    assert [] + NonEmpty(fields[1..]) == NonEmpty(fields[1..]);
  }

  lemma {:induction false} GetAbsent(fields: seq<Field>, name: bytes)
    requires forall f <- fields :: f.name != name
    ensures Get(NonEmpty(fields), name) == []
  {
    if fields != [] {
      assert fields[0] in fields && forall f <- fields[1..] :: f in fields;
      GetAbsent(fields[1..], name);
      NonEmptyCons(fields);
      GetCons(fields[0], NonEmpty(fields[1..]), name);
    }
  }

  /** Leaving out the empty fields changes no field's value. */
  lemma {:induction false} GetNonEmpty(fields: seq<Field>, i: nat)
    requires i < |fields|
    requires forall j, k | 0 <= j < k < |fields| :: fields[j].name != fields[k].name
    ensures Get(NonEmpty(fields), fields[i].name) == fields[i].value
  {
    var rest := fields[1..];
    NonEmptyCons(fields);
    GetCons(fields[0], NonEmpty(rest), fields[i].name);
    if i == 0 {
      forall f <- rest ensures f.name != fields[0].name {
        var k :| 0 <= k < |rest| && rest[k] == f;
        assert fields[k + 1] == f;
      }
      GetAbsent(rest, fields[0].name);
    } else {
      assert rest[i - 1] == fields[i];
      GetNonEmpty(rest, i - 1);
    }
  }

  function Part(f: Field): bytes {
    f.name + [EQUALS] + QueryEscape(f.value)
  }

  /** strings.Join(parts, "&"). */
  function Joined(parts: seq<bytes>): bytes {
    if parts == [] then []
    else if |parts| == 1 then parts[0]
    else parts[0] + [AMPERSAND] + Joined(parts[1..])
  }

  function Parts(fields: seq<Field>): seq<bytes> {
    seq(|fields|, i requires 0 <= i < |fields| => Part(fields[i]))
  }

  function NonEmpty(fields: seq<Field>): seq<Field> {
    if fields == [] then []
    else (if fields[0].value != [] then [fields[0]] else []) + NonEmpty(fields[1..])
  }

  /** The fields of the raw cookie in the order in which they are added. */
  function Fields(c: AuthCookie): seq<Field> {
    [Field(AUTHCOOKIE, c.authCookie), Field(PORTAL, c.portal), Field(USER, c.user),
     Field(DOMAIN, c.domain), Field(PREFERRED_IP, c.preferredIp), Field(COMPUTER, c.computer)]
  }

  lemma {:induction false} NonEmptySnoc(fields: seq<Field>, f: Field)
    ensures NonEmpty(fields + [f]) == if f.value != [] then NonEmpty(fields) + [f] else NonEmpty(fields)
  {
    if fields == [] {
      assert fields + [f] == [f] && [f][1..] == [];
      NonEmptyCons([f]);
      assert NonEmpty([]) == [] && [f] + [] == [] + [f];
    } else {
      TailOfConcat(fields, [f]);
      NonEmptyCons(fields);
      NonEmptyCons(fields + [f]);
      NonEmptySnoc(fields[1..], f);
      ConcatAssociates([fields[0]], NonEmpty(fields[1..]), [f]);
    }
  }

  /** addPart, when parts come from these fields. */
  method AddPart(parts: seq<bytes>, ghost fields: seq<Field>, name: bytes, value: bytes)
    returns (parts': seq<bytes>)
    requires parts == Parts(NonEmpty(fields))
    ensures parts' == Parts(NonEmpty(fields + [Field(name, value)]))
  {
    NonEmptySnoc(fields, Field(name, value));
    parts' := parts;
    if value != [] {
      parts' := parts + [name + [EQUALS] + QueryEscape(value)];
    }
  }

  /** The end of parseLoginOrChallenge: None is the error that the response carries no authcookie. */
  method BuildCookie(args: seq<bytes>, computer: bytes) returns (cookie: Option<AuthCookie>)
    ensures cookie.None? <==> Argument(args, 1) == []
    ensures cookie.Some? ==>
              var c := cookie.value;
              && c.authCookie == Argument(args, 1) && c.persistentCookie == Argument(args, 2)
              && c.portal == Argument(args, 3) && c.user == Argument(args, 4)
              && c.domain == Argument(args, 7) && c.preferredIp == Argument(args, 15)
              && c.computer == computer
              && c.rawCookie == Joined(Parts(NonEmpty(Fields(c))))
              && ParseForm(c.rawCookie) == NonEmpty(Fields(c))
              && Says(ParseForm(c.rawCookie), c)
  {
    var c := AuthCookie(Argument(args, 1), Argument(args, 2), Argument(args, 3), Argument(args, 4),
                        Argument(args, 7), Argument(args, 15), computer, []);
    if c.authCookie == [] {
      return None;
    }
    var parts: seq<bytes> := [];
    parts := AddPart(parts, [], AUTHCOOKIE, c.authCookie);
    ghost var added := [] + [Field(AUTHCOOKIE, c.authCookie)];
    parts := AddPart(parts, added, PORTAL, c.portal);
    added := added + [Field(PORTAL, c.portal)];
    parts := AddPart(parts, added, USER, c.user);
    added := added + [Field(USER, c.user)];
    parts := AddPart(parts, added, DOMAIN, c.domain);
    added := added + [Field(DOMAIN, c.domain)];
    parts := AddPart(parts, added, PREFERRED_IP, c.preferredIp);
    added := added + [Field(PREFERRED_IP, c.preferredIp)];
    parts := AddPart(parts, added, COMPUTER, c.computer);
    added := added + [Field(COMPUTER, c.computer)];
    assert added == Fields(c);
    c := c.(rawCookie := Joined(parts));
    CookieRoundTrip(c);
    FieldsSay(c);
    return Some(c);
  }

  // ----- Round trip -----

  lemma HexRoundTrip(b: byte)
    ensures HexValue(HexDigit(b / 16)) == Some(b / 16) && HexValue(HexDigit(b % 16)) == Some(b % 16)
  {
  }

  lemma DecodeEscapedByte(b: byte, rest: bytes)
    ensures Decode(EscapedByte(b) + rest) == [b] + Decode(rest)
  {
    var e := EscapedByte(b);
    HexRoundTrip(b);
    assert (e + rest)[|e|..] == rest;
    if |e| == 3 {
      assert (e + rest)[3..] == rest;
    } else {
      assert (e + rest)[1..] == rest;
    }
  }

  lemma {:induction false} DecodeEscape(s: bytes)
    ensures Decode(QueryEscape(s)) == s
  {
    if s != [] {
      DecodeEscapedByte(s[0], QueryEscape(s[1..]));
      DecodeEscape(s[1..]);
    }
  }

  predicate Plain(s: bytes) {
    forall b <- s :: Unreserved(b)
  }

  lemma {:induction false} DecodePlain(s: bytes)
    requires Plain(s)
    ensures Decode(s) == s
  {
    if s != [] {
      assert s[0] in s;
      forall b <- s[1..] ensures Unreserved(b) {
        assert b in s;
      }
      DecodePlain(s[1..]);
    }
  }

  /** What url.QueryEscape makes of one byte: letters, digits and "-._~" stay, a space becomes '+', and any
      other byte a '%' and two upper-case hexadecimal digits. */
  lemma EscapedByteIs(b: byte)
    ensures QueryEscape([b]) == (
              if b == ' ' as int then ['+' as int]
              else if 'a' as int <= b <= 'z' as int || 'A' as int <= b <= 'Z' as int || '0' as int <= b <= '9' as int
                      || b == '-' as int || b == '.' as int || b == '_' as int || b == '~' as int then [b]
              else ['%' as int, "0123456789ABCDEF"[b / 16] as int, "0123456789ABCDEF"[b % 16] as int])
  {
    assert QueryEscape([b]) == EscapedByte(b) + QueryEscape([b][1..]);
    assert QueryEscape([]) == [];
    HexUpper(b / 16);
    HexUpper(b % 16);
  }

  lemma HexUpper(v: nat)
    requires v < 16
    ensures HexDigit(v) == "0123456789ABCDEF"[v] as int
  {
  }

  /** Escaping works byte by byte. */
  lemma {:induction false} EscapeConcat(a: bytes, b: bytes)
    ensures QueryEscape(a + b) == QueryEscape(a) + QueryEscape(b)
  {
    if a == [] {
      assert a + b == b;
    } else {
      assert (a + b)[1..] == a[1..] + b;
      EscapeConcat(a[1..], b);
    }
  }

  lemma {:induction false} EscapeHasNo(s: bytes, separator: byte)
    requires separator == AMPERSAND || separator == EQUALS
    ensures separator !in QueryEscape(s)
  {
    if s != [] {
      EscapeHasNo(s[1..], separator);
    }
  }

  lemma {:induction false} CutAt(before: bytes, separator: byte, after: bytes)
    requires separator !in before
    ensures Cut(before + [separator] + after, separator) == (before, Some(after))
  {
    var s := before + [separator] + after;
    if before == [] {
      assert s[1..] == after;
    } else {
      assert s[1..] == before[1..] + [separator] + after;
      assert before[0] in before && before == [before[0]] + before[1..];
      CutAt(before[1..], separator, after);
    }
  }

  lemma {:induction false} CutNone(s: bytes, separator: byte)
    requires separator !in s
    ensures Cut(s, separator) == (s, None)
  {
    if s != [] {
      assert s[0] in s && s == [s[0]] + s[1..];
      CutNone(s[1..], separator);
    }
  }

  lemma PartParses(f: Field)
    requires Plain(f.name)
    ensures AMPERSAND !in Part(f) && Part(f) != []
    ensures Cut(Part(f), EQUALS) == (f.name, Some(QueryEscape(f.value)))
    ensures Decode(f.name) == f.name && Decode(QueryEscape(f.value)) == f.value
  {
    assert EQUALS !in f.name && AMPERSAND !in f.name;
    EscapeHasNo(f.value, AMPERSAND);
    CutAt(f.name, EQUALS, QueryEscape(f.value));
    DecodePlain(f.name);
    DecodeEscape(f.value);
  }

  /** Joining escaped fields with plain names and parsing the result gives the fields back, whatever
      bytes the values hold. */
  lemma {:induction false} FormRoundTrip(fields: seq<Field>)
    requires forall i | 0 <= i < |fields| :: Plain(fields[i].name)
    ensures ParseForm(Joined(Parts(fields))) == fields
    decreases |fields|
  {
    if fields == [] {
      assert Cut([], AMPERSAND) == ([], None);
    } else if |fields| == 1 {
      OneFieldParses(fields[0]);
      assert Parts(fields) == [Part(fields[0])] && fields == [fields[0]];
    } else {
      FormRoundTrip(fields[1..]);
      FirstFieldParses(fields[0], Joined(Parts(fields[1..])));
      JoinedFirst(fields);
      assert fields == [fields[0]] + fields[1..];
    }
  }

  lemma JoinedFirst(fields: seq<Field>)
    requires |fields| > 1
    ensures Joined(Parts(fields)) == Part(fields[0]) + [AMPERSAND] + Joined(Parts(fields[1..]))
  {
    assert Parts(fields)[1..] == Parts(fields[1..]);
  }

  lemma OneFieldParses(f: Field)
    requires Plain(f.name)
    ensures ParseForm(Part(f)) == [f]
  {
    PartParses(f);
    CutNone(Part(f), AMPERSAND);
  }

  lemma FirstFieldParses(f: Field, rest: bytes)
    requires Plain(f.name)
    ensures ParseForm(Part(f) + [AMPERSAND] + rest) == [f] + ParseForm(rest)
  {
    PartParses(f);
    CutAt(Part(f), AMPERSAND, rest);
  }

  lemma {:induction false} NonEmptyMembers(fields: seq<Field>)
    ensures forall f <- NonEmpty(fields) :: f in fields
  {
    if fields != [] {
      NonEmptyMembers(fields[1..]);
    }
  }

  /** Parsing a raw cookie returns exactly the nonempty fields in the order in which they were added. */
  lemma CookieRoundTrip(c: AuthCookie)
    ensures ParseForm(Joined(Parts(NonEmpty(Fields(c))))) == NonEmpty(Fields(c))
  {
    NonEmptyMembers(Fields(c));
    NamesPlain();
    assert forall f <- Fields(c) :: Plain(f.name);
    FormRoundTrip(NonEmpty(Fields(c)));
  }

  /** The form gives for each name the cookie's value, and has no other name. */
  ghost predicate Says(form: seq<Field>, c: AuthCookie) {
    && Get(form, Ascii("authcookie")) == c.authCookie && Get(form, Ascii("portal")) == c.portal
    && Get(form, Ascii("user")) == c.user && Get(form, Ascii("domain")) == c.domain
    && Get(form, Ascii("preferred-ip")) == c.preferredIp && Get(form, Ascii("computer")) == c.computer
    && forall f <- form ::
         f.name in [Ascii("authcookie"), Ascii("portal"), Ascii("user"), Ascii("domain"), Ascii("preferred-ip"), Ascii("computer")]
  }

  lemma DistinctNames(c: AuthCookie)
    ensures forall j, k | 0 <= j < k < 6 :: Fields(c)[j].name != Fields(c)[k].name
  {
    assert PORTAL[0] != DOMAIN[0];
  }

  lemma FieldsSay(c: AuthCookie)
    ensures Says(NonEmpty(Fields(c)), c)
  {
    NamesAre();
    DistinctNames(c);
    NonEmptyMembers(Fields(c));
    forall i | 0 <= i < 6 ensures Get(NonEmpty(Fields(c)), Fields(c)[i].name) == Fields(c)[i].value {
      GetNonEmpty(Fields(c), i);
    }
    var f := Fields(c);
    assert f[0].name == AUTHCOOKIE && f[1].name == PORTAL && f[2].name == USER;
    assert f[3].name == DOMAIN && f[4].name == PREFERRED_IP && f[5].name == COMPUTER;
  }

  lemma NamesPlain()
    ensures Plain(AUTHCOOKIE) && Plain(PORTAL) && Plain(USER)
    ensures Plain(DOMAIN) && Plain(PREFERRED_IP) && Plain(COMPUTER)
  {
  }
}
