/** Query strings: percent-encoding, building a request target, and parsing it again. */
module Query {
  import opened Bytes

  const SPACE: byte := 0x20
  const PERCENT: byte := 0x25
  const AMPERSAND: byte := 0x26
  const PLUS: byte := 0x2B
  const SLASH: byte := 0x2F
  const EQUALS: byte := 0x3D
  const QUESTION: byte := 0x3F

  // ---- Percent-encoding (section 2.1 of RFC 3986) ----

  predicate Unreserved(c: byte)
  {
    || 0x30 <= c <= 0x39 || 0x41 <= c <= 0x5A || 0x61 <= c <= 0x7A
    || c == 0x2D || c == 0x5F || c == 0x2E || c == 0x7E
  }

  function HexDigit(n: int): byte
    requires 0 <= n < 16
  {
    if n < 10 then 0x30 + n else 0x41 + n - 10
  }

  /** -1 for anything but a hexadecimal digit. */
  function HexNibble(c: byte): int
  {
    if 0x30 <= c <= 0x39 then c - 0x30
    else if 0x41 <= c <= 0x46 then c - 0x41 + 10
    else if 0x61 <= c <= 0x66 then c - 0x61 + 10
    else -1
  }

  function EncodeByte(c: byte): bytes
  {
    if Unreserved(c) then [c] else [PERCENT, HexDigit(c / 16), HexDigit(c % 16)]
  }

  function UrlEncode(s: bytes): bytes
  {
    if s == [] then [] else EncodeByte(s[0]) + UrlEncode(s[1..])
  }

  /** A complete escape at the front of `s`. */
  predicate StartsEscape(s: bytes)
  {
    |s| > 2 && s[0] == PERCENT && HexNibble(s[1]) >= 0 && HexNibble(s[2]) >= 0
  }

  function EscapedByte(s: bytes): byte
    requires StartsEscape(s)
  {
    HexNibble(s[1]) * 16 + HexNibble(s[2])
  }

  /** Incomplete or malformed escapes are left as they are. */
  function UrlDecode(s: bytes): bytes
    decreases |s|
  {
    if s == [] then []
    else if s[0] == PLUS then [SPACE] + UrlDecode(s[1..])
    else if StartsEscape(s) then [EscapedByte(s)] + UrlDecode(s[3..])
    else [s[0]] + UrlDecode(s[1..])
  }

  lemma EncodeByteDecodes(c: byte, rest: bytes)
    ensures UrlDecode(EncodeByte(c) + rest) == [c] + UrlDecode(rest)
  {
    var s := EncodeByte(c) + rest;
    if Unreserved(c) {
      assert s[1..] == rest;
    } else {
      assert HexNibble(HexDigit(c / 16)) == c / 16 && HexNibble(HexDigit(c % 16)) == c % 16;
      assert s[3..] == rest;
    }
  }

  /** Every byte string survives encoding and decoding. */
  lemma {:induction false} DecodeEncode(s: bytes)
    ensures UrlDecode(UrlEncode(s)) == s
    decreases |s|
  {
    if s != [] {
      EncodeByteDecodes(s[0], UrlEncode(s[1..]));
      DecodeEncode(s[1..]);
    }
  }

  // ---- The encoded form ----

  /** The characters that section 2.3 of RFC 3986 calls unreserved. */
  predicate IsUnreserved(ch: char)
  {
    'A' <= ch <= 'Z' || 'a' <= ch <= 'z' || '0' <= ch <= '9' || ch == '-' || ch == '.' || ch == '_' || ch == '~'
  }

  predicate IsUpperHex(ch: char)
  {
    '0' <= ch <= '9' || 'A' <= ch <= 'F'
  }

  /** An unreserved character stands for itself; every other byte is a percent sign and its two
      upper-case hexadecimal digits. */
  lemma ByteForm(c: byte)
    ensures IsUnreserved(c as char) ==> UrlEncode([c]) == [c]
    ensures !IsUnreserved(c as char) ==>
      var e := UrlEncode([c]);
      && |e| == 3 && e[0] as char == '%' && IsUpperHex(e[1] as char) && IsUpperHex(e[2] as char)
      && HexNibble(e[1]) * 16 + HexNibble(e[2]) == c
  {
    assert [c][1..] == [];
    assert UrlEncode([c]) == EncodeByte(c) + [] == EncodeByte(c);
  }

  /** Encoding leaves a text alone exactly if it consists of unreserved characters. */
  lemma {:induction false} LeftAloneIff(s: bytes)
    ensures |UrlEncode(s)| >= |s|
    ensures UrlEncode(s) == s <==> forall i :: 0 <= i < |s| ==> IsUnreserved(s[i] as char)
    decreases |s|
  {
    if s != [] {
      LeftAloneIff(s[1..]);
      assert s == [s[0]] + s[1..];
      if IsUnreserved(s[0] as char) {
        assert UrlEncode(s) == [s[0]] + UrlEncode(s[1..]);
      } else {
        assert |UrlEncode(s)| == 3 + |UrlEncode(s[1..])|;
      }
    }
  }

  // ---- Other encoders ----

  /** How an encoder may write a byte: as it is, as an escape with digits of either case, or, for
      a blank, as a plus sign. */
  datatype Style = Literal | Escape(upperHigh: bool, upperLow: bool) | Plus

  predicate Allowed(c: byte, style: Style)
  {
    match style
    case Literal => c != PERCENT && c != PLUS
    case Escape(_, _) => true
    case Plus => c == SPACE
  }

  function Digit(n: int, upper: bool): byte
    requires 0 <= n < 16
  {
    if n < 10 then 0x30 + n else if upper then 0x41 + n - 10 else 0x61 + n - 10
  }

  function EncodeAs(c: byte, style: Style): bytes
  {
    match style
    case Literal => [c]
    case Escape(high, low) => [PERCENT, Digit(c / 16, high), Digit(c % 16, low)]
    case Plus => [PLUS]
  }

  function EncodeStyled(s: bytes, styles: seq<Style>): bytes
    requires |s| == |styles|
  {
    if s == [] then [] else EncodeAs(s[0], styles[0]) + EncodeStyled(s[1..], styles[1..])
  }

  lemma StyleDecodes(c: byte, style: Style, rest: bytes)
    requires Allowed(c, style)
    ensures UrlDecode(EncodeAs(c, style) + rest) == [c] + UrlDecode(rest)
  {
    var s := EncodeAs(c, style) + rest;
    if style.Escape? {
      assert HexNibble(Digit(c / 16, style.upperHigh)) == c / 16;
      assert HexNibble(Digit(c % 16, style.upperLow)) == c % 16;
      assert s[3..] == rest;
    } else {
      assert s[1..] == rest;
    }
  }

  /** Whichever way each byte was written, decoding gives the text back. */
  lemma {:induction false} DecodesAnyStyle(s: bytes, styles: seq<Style>)
    requires |s| == |styles| && forall i :: 0 <= i < |s| ==> Allowed(s[i], styles[i])
    ensures UrlDecode(EncodeStyled(s, styles)) == s
    decreases |s|
  {
    if s != [] {
      StyleDecodes(s[0], styles[0], EncodeStyled(s[1..], styles[1..]));
      DecodesAnyStyle(s[1..], styles[1..]);
    }
  }

  /** Is there anything to decode: a plus sign, or a percent sign with two digits behind it? */
  ghost predicate HasCode(s: bytes)
  {
    exists i :: 0 <= i < |s| && (s[i] == PLUS || StartsEscape(s[i..]))
  }

  lemma HasCodeTail(s: bytes)
    requires s != [] && s[0] != PLUS && !StartsEscape(s)
    ensures HasCode(s) <==> HasCode(s[1..])
  {
    if HasCode(s) {
      var i :| 0 <= i < |s| && (s[i] == PLUS || StartsEscape(s[i..]));
      assert s[0..] == s;
      assert s[1..][i - 1] == s[i] && s[1..][i - 1..] == s[i..];
    }
    if HasCode(s[1..]) {
      var i :| 0 <= i < |s[1..]| && (s[1..][i] == PLUS || StartsEscape(s[1..][i..]));
      assert s[i + 1] == s[1..][i] && s[i + 1..] == s[1..][i..];
    }
  }

  lemma {:induction false} DecodeShortens(s: bytes)
    ensures |UrlDecode(s)| <= |s|
    decreases |s|
  {
    if s != [] {
      DecodeShortens(if s[0] != PLUS && StartsEscape(s) then s[3..] else s[1..]);
    }
  }

  /** Text comes through unchanged exactly if it holds neither a plus sign nor a complete escape;
      a percent sign without two digits behind it is a character like any other. */
  lemma {:induction false} UnchangedIff(s: bytes)
    ensures UrlDecode(s) == s <==> !HasCode(s)
    decreases |s|
  {
    if s != [] {
      assert s[0..] == s;
      if s[0] == PLUS {
        assert UrlDecode(s)[0] == SPACE;
      } else if StartsEscape(s) {
        DecodeShortens(s[3..]);
      } else {
        UnchangedIff(s[1..]);
        HasCodeTail(s);
        assert [s[0]] + s[1..] == s;
      }
    }
  }

  /** Encoded text consists of unreserved characters and escapes, so it has no delimiters. */
  lemma {:induction false} EncodedIsClean(s: bytes, c: byte)
    requires c in {SLASH, QUESTION, AMPERSAND, EQUALS, PLUS}
    ensures c !in UrlEncode(s)
    decreases |s|
  {
    if s != [] {
      EncodedIsClean(s[1..], c);
    }
  }

  // ---- Splitting ----

  /** The pieces between the occurrences of `c`: one more than there are occurrences. */
  function Pieces(s: bytes, c: byte): (r: seq<bytes>)
    ensures r != []
  {
    if s == [] then [[]]
    else
      var r := Pieces(s[1..], c);
      if s[0] == c then [[]] + r else [[s[0]] + r[0]] + r[1..]
  }

  /** `std::views::split` yields nothing at all for an empty string. */
  function Split(s: bytes, c: byte): seq<bytes>
  {
    if s == [] then [] else Pieces(s, c)
  }

  lemma {:induction false} PiecesNoDelimiter(s: bytes, c: byte)
    requires c !in s
    ensures Pieces(s, c) == [s]
    decreases |s|
  {
    if s != [] {
      PiecesNoDelimiter(s[1..], c);
      assert [s[0]] + s[1..] == s;
    }
  }

  lemma {:induction false} PiecesFirst(a: bytes, c: byte, b: bytes)
    requires c !in a
    ensures Pieces(a + [c] + b, c) == [a] + Pieces(b, c)
    decreases |a|
  {
    var s := a + [c] + b;
    if a == [] {
      assert s[1..] == b;
    } else {
      assert s[1..] == a[1..] + [c] + b;
      PiecesFirst(a[1..], c, b);
      assert [a[0]] + a[1..] == a;
    }
  }

  /** No piece contains the delimiter, nor anything that the text did not contain. */
  lemma {:induction false} PiecesClean(s: bytes, c: byte, d: byte, i: nat)
    requires i < |Pieces(s, c)| && (d == c || d !in s)
    ensures d !in Pieces(s, c)[i]
    decreases |s|
  {
    if s != [] {
      var r := Pieces(s[1..], c);
      if s[0] == c {
        if i > 0 {
          PiecesClean(s[1..], c, d, i - 1);
        }
      } else {
        PiecesClean(s[1..], c, d, i);
      }
    }
  }

  // ---- Building ----

  datatype Param = Param(key: bytes, value: bytes)

  function Pair(p: Param): bytes
  {
    p.key + [EQUALS] + p.value
  }

  function Join(ps: seq<Param>): bytes
    requires ps != []
  {
    if |ps| == 1 then Pair(ps[0]) else Pair(ps[0]) + [AMPERSAND] + Join(ps[1..])
  }

  /** The target `buildRequest` puts together from a path and parameters in key order. */
  function Target(path: bytes, ps: seq<Param>): bytes
  {
    if ps == [] then path else path + [QUESTION] + Join(ps)
  }

  function Encoded(ps: seq<Param>): seq<Param>
  {
    seq(|ps|, i requires 0 <= i < |ps| => Param(ps[i].key, UrlEncode(ps[i].value)))
  }

  // ---- Parsing ----

  datatype HttpFunction = HttpFunction(name: bytes, params: seq<Param>)

  function ParseParam(p: bytes): seq<Param>
  {
    var pair := Split(p, EQUALS);
    if |pair| < 2 || pair[0] == [] then [] else [Param(pair[0], UrlDecode(pair[1]))]
  }

  function ParseParams(ps: seq<bytes>): seq<Param>
  {
    if ps == [] then [] else ParseParam(ps[0]) + ParseParams(ps[1..])
  }

  function Parse(target: bytes): HttpFunction
  {
    if SLASH !in target then HttpFunction(target, [])
    else
      var parts := Split(target, QUESTION);
      if |parts| == 1 then HttpFunction(parts[0], [])
      else HttpFunction(parts[0], ParseParams(Split(parts[1], AMPERSAND)))
  }

  // ---- What counts as a parameter ----

  lemma FirstTwo(key: bytes, tail: bytes)
    requires EQUALS !in key
    ensures ParseParam(key + [EQUALS] + tail) ==
      if key == [] then [] else [Param(key, UrlDecode(Pieces(tail, EQUALS)[0]))]
  {
    PiecesFirst(key, EQUALS, tail);
  }

  /** A parameter is a non-empty name, an equals sign and a value. A second equals sign cuts the
      value off; without an equals sign, or with nothing before it, there is no parameter. */
  lemma ParameterShape(key: bytes, value: bytes, rest: bytes)
    requires EQUALS !in key && EQUALS !in value
    ensures ParseParam(key + [EQUALS] + value) == if key == [] then [] else [Param(key, UrlDecode(value))]
    ensures ParseParam(key + [EQUALS] + (value + [EQUALS] + rest)) ==
      if key == [] then [] else [Param(key, UrlDecode(value))]
    ensures ParseParam(key) == []
  {
    FirstTwo(key, value);
    PiecesNoDelimiter(value, EQUALS);
    FirstTwo(key, value + [EQUALS] + rest);
    PiecesFirst(value, EQUALS, rest);
    PiecesNoDelimiter(key, EQUALS);
  }

  /** The part of a target behind a second question mark does not matter, and a target without
      any is all path. */
  lemma SecondQuestionIgnored(path: bytes, query: bytes, rest: bytes)
    requires QUESTION !in path && QUESTION !in query && SLASH in path
    ensures Parse(path + [QUESTION] + query + [QUESTION] + rest) == Parse(path + [QUESTION] + query)
    ensures Parse(path + [QUESTION] + query).params == ParseParams(Split(query, AMPERSAND))
    ensures Parse(path) == HttpFunction(path, [])
  {
    PiecesFirst(path, QUESTION, query);
    PiecesNoDelimiter(query, QUESTION);
    PiecesFirst(query, QUESTION, rest);
    assert path + [QUESTION] + query + [QUESTION] + rest == path + [QUESTION] + (query + [QUESTION] + rest);
    PiecesFirst(path, QUESTION, query + [QUESTION] + rest);
    PiecesNoDelimiter(path, QUESTION);
  }

  // ---- Round trip ----

  predicate GoodKey(key: bytes)
  {
    key != [] && QUESTION !in key && AMPERSAND !in key && EQUALS !in key
  }

  predicate GoodKeys(ps: seq<Param>)
  {
    forall i :: 0 <= i < |ps| ==> GoodKey(ps[i].key)
  }

  predicate CleanValues(ps: seq<Param>)
  {
    forall i :: 0 <= i < |ps| ==>
      QUESTION !in ps[i].value && AMPERSAND !in ps[i].value && EQUALS !in ps[i].value && SLASH !in ps[i].value
  }

  lemma EncodedClean(ps: seq<Param>)
    ensures CleanValues(Encoded(ps))
  {
    forall i | 0 <= i < |ps|
      ensures var v := Encoded(ps)[i].value; QUESTION !in v && AMPERSAND !in v && EQUALS !in v && SLASH !in v
    {
      EncodedIsClean(ps[i].value, QUESTION);
      EncodedIsClean(ps[i].value, AMPERSAND);
      EncodedIsClean(ps[i].value, EQUALS);
      EncodedIsClean(ps[i].value, SLASH);
    }
  }

  lemma PairParses(p: Param)
    requires GoodKey(p.key) && EQUALS !in p.value
    ensures ParseParam(Pair(p)) == [Param(p.key, UrlDecode(p.value))]
  {
    PiecesFirst(p.key, EQUALS, p.value);
    PiecesNoDelimiter(p.value, EQUALS);
  }

  /** What the parser makes of the joined parameters. */
  lemma {:induction false} JoinParses(ps: seq<Param>)
    requires ps != [] && GoodKeys(ps) && CleanValues(ps)
    ensures QUESTION !in Join(ps)
    ensures Join(ps) != []
    ensures ParseParams(Pieces(Join(ps), AMPERSAND)) ==
      seq(|ps|, i requires 0 <= i < |ps| => Param(ps[i].key, UrlDecode(ps[i].value)))
    decreases |ps|
  {
    PairParses(ps[0]);
    if |ps| == 1 {
      PiecesNoDelimiter(Pair(ps[0]), AMPERSAND);
      assert [Pair(ps[0])][1..] == [];
    } else {
      JoinParses(ps[1..]);
      PiecesFirst(Pair(ps[0]), AMPERSAND, Join(ps[1..]));
      assert ([Pair(ps[0])] + Pieces(Join(ps[1..]), AMPERSAND))[1..] == Pieces(Join(ps[1..]), AMPERSAND);
    }
  }

  lemma {:induction false} SlashInJoin(ps: seq<Param>)
    requires ps != [] && CleanValues(ps)
    ensures SLASH in Join(ps) <==> exists i :: 0 <= i < |ps| && SLASH in ps[i].key
    decreases |ps|
  {
    if |ps| > 1 {
      SlashInJoin(ps[1..]);
      assert forall i :: 1 <= i < |ps| ==> ps[i] == ps[1..][i - 1];
      if SLASH in Join(ps[1..]) {
        var i :| 0 <= i < |ps[1..]| && SLASH in ps[1..][i].key;
        assert SLASH in ps[i + 1].key;
      }
    }
  }

  /** Names that come out of the parser are never empty and contain no delimiter. */
  lemma {:induction false} ParsedKeysGood(ps: seq<bytes>)
    requires forall i :: 0 <= i < |ps| ==> QUESTION !in ps[i] && AMPERSAND !in ps[i]
    ensures GoodKeys(ParseParams(ps))
    decreases |ps|
  {
    if ps != [] {
      ParsedKeysGood(ps[1..]);
      if ParseParam(ps[0]) != [] {
        PiecesClean(ps[0], EQUALS, EQUALS, 0);
        PiecesClean(ps[0], EQUALS, QUESTION, 0);
        PiecesClean(ps[0], EQUALS, AMPERSAND, 0);
      }
    }
  }

  lemma SplitClean(s: bytes, c: byte, d: byte)
    requires d == c || d !in s
    ensures forall i :: 0 <= i < |Split(s, c)| ==> d !in Split(s, c)[i]
  {
    if s != [] {
      forall i | 0 <= i < |Pieces(s, c)|
        ensures d !in Pieces(s, c)[i]
      {
        PiecesClean(s, c, d, i);
      }
    }
  }

  /** What the parser returns for a target with a slash is delimiter-free throughout. */
  lemma ParsedIsClean(target: bytes)
    requires SLASH in target
    ensures QUESTION !in Parse(target).name && GoodKeys(Parse(target).params)
  {
    var parts := Split(target, QUESTION);
    SplitClean(target, QUESTION, QUESTION);
    if |parts| > 1 {
      SplitClean(parts[1], AMPERSAND, AMPERSAND);
      SplitClean(parts[1], AMPERSAND, QUESTION);
      ParsedKeysGood(Split(parts[1], AMPERSAND));
    }
  }

  lemma TargetParses(path: bytes, ps: seq<Param>)
    requires QUESTION !in path && GoodKeys(ps) && SLASH in Target(path, Encoded(ps))
    ensures Parse(Target(path, Encoded(ps))) == HttpFunction(path, ps)
  {
    var es := Encoded(ps);
    var target := Target(path, es);
    if ps == [] {
      assert target == path;
      PiecesNoDelimiter(path, QUESTION);
    } else {
      EncodedClean(ps);
      JoinParses(es);
      PiecesFirst(path, QUESTION, Join(es));
      PiecesNoDelimiter(Join(es), QUESTION);
      forall i | 0 <= i < |ps|
        ensures UrlDecode(es[i].value) == ps[i].value
      {
        DecodeEncode(ps[i].value);
      }
    }
  }

  /** When the request parser will recover path and parameters from the built target. */
  predicate Recoverable(path: bytes, ps: seq<Param>)
  {
    if SLASH !in path && (forall i :: 0 <= i < |ps| ==> SLASH !in ps[i].key) then ps == []
    else QUESTION !in path && GoodKeys(ps)
  }

  /** Round trip, exactly: path and all parameters come back, in order and with their original
      byte-string values, if and only if the path has no question mark, every key is non-empty
      and free of '?', '&' and '=', and a slash occurs in the path or a key; a target without
      any slash comes back whole, which is right just when there are no parameters. */
  lemma RoundTripIff(path: bytes, ps: seq<Param>)
    ensures Parse(Target(path, Encoded(ps))) == HttpFunction(path, ps) <==> Recoverable(path, ps)
  {
    var es := Encoded(ps);
    var target := Target(path, es);
    SlashInTarget(path, ps);
    if SLASH in target {
      if QUESTION !in path && GoodKeys(ps) {
        TargetParses(path, ps);
      } else {
        ParsedIsClean(target);
      }
    }
  }

  /** A path without a slash and a parameter: the question mark is not recognised. */
  lemma NoSlashNoParameters(path: bytes, p: Param)
    requires SLASH !in path && SLASH !in p.key
    ensures Parse(Target(path, Encoded([p]))) != HttpFunction(path, [p])
  {
    RoundTripIff(path, [p]);
  }

  lemma SlashInTarget(path: bytes, ps: seq<Param>)
    ensures SLASH in Target(path, Encoded(ps)) <==> SLASH in path || exists i :: 0 <= i < |ps| && SLASH in ps[i].key
  {
    var es := Encoded(ps);
    if ps != [] {
      EncodedClean(ps);
      SlashInJoin(es);
      assert forall i :: 0 <= i < |ps| ==> es[i].key == ps[i].key;
      if SLASH in Join(es) {
        var i :| 0 <= i < |es| && SLASH in es[i].key;
        assert SLASH in ps[i].key;
      }
      if i :| 0 <= i < |ps| && SLASH in ps[i].key {
        assert SLASH in es[i].key;
      }
    }
  }

  /** The lookup by name. */
  function Lookup(ps: seq<Param>, key: bytes): bytes
  {
    if ps == [] then [] else if ps[0].key == key then ps[0].value else Lookup(ps[1..], key)
  }

  lemma {:induction false} LookupAt(ps: seq<Param>, i: nat)
    requires i < |ps| && forall j :: 0 <= j < i ==> ps[j].key != ps[i].key
    ensures Lookup(ps, ps[i].key) == ps[i].value
    decreases |ps|
  {
    if i > 0 {
      assert ps[1..][i - 1] == ps[i];
      LookupAt(ps[1..], i - 1);
    }
  }

  /** A name that is not there has the empty value. */
  lemma {:induction false} LookupMissing(ps: seq<Param>, key: bytes)
    requires forall i :: 0 <= i < |ps| ==> ps[i].key != key
    ensures Lookup(ps, key) == []
    decreases |ps|
  {
    if ps != [] {
      LookupMissing(ps[1..], key);
    }
  }

  /** With distinct keys a handler finds each value under its key. */
  lemma LookupAfterRoundTrip(path: bytes, ps: seq<Param>, i: nat)
    requires SLASH in path && QUESTION !in path && GoodKeys(ps) && i < |ps|
    requires forall j, k :: 0 <= j < k < |ps| ==> ps[j].key != ps[k].key
    ensures Lookup(Parse(Target(path, Encoded(ps))).params, ps[i].key) == ps[i].value
  {
    RoundTripIff(path, ps);
    LookupAt(ps, i);
  }

  // ---- The code ----

  lemma {:induction false} EncodeSnoc(s: bytes, c: byte)
    ensures UrlEncode(s + [c]) == UrlEncode(s) + EncodeByte(c)
    decreases |s|
  {
    if s == [] {
      assert [c][1..] == [];
    } else {
      assert (s + [c])[1..] == s[1..] + [c];
      EncodeSnoc(s[1..], c);
    }
  }

  method EncodeValue(s: bytes) returns (out: bytes)
    ensures out == UrlEncode(s)
  {
    out := [];
    for i := 0 to |s|
      invariant out == UrlEncode(s[..i])
    {
      var c := s[i];
      assert s[..i + 1] == s[..i] + [c];
      EncodeSnoc(s[..i], c);
      if Unreserved(c) {
        out := out + [c];
      } else {
        out := out + [PERCENT] + [HexDigit(c / 16)] + [HexDigit(c % 16)];
      }
    }
    assert s[..|s|] == s;
  }

  /** The first decoded byte ... */
  function FrontByte(s: bytes): byte
    requires s != []
  {
    if s[0] == PLUS then SPACE else if StartsEscape(s) then EscapedByte(s) else s[0]
  }

  /** ... and how many bytes it stands for. */
  function FrontLength(s: bytes): (n: nat)
    requires s != []
    ensures 1 <= n <= |s|
  {
    if s[0] != PLUS && StartsEscape(s) then 3 else 1
  }

  lemma FrontDecodes(s: bytes)
    requires s != []
    ensures UrlDecode(s) == [FrontByte(s)] + UrlDecode(s[FrontLength(s)..])
  {
    if s[0] == PLUS {
      assert UrlDecode(s) == [SPACE] + UrlDecode(s[1..]);
    } else if StartsEscape(s) {
      assert UrlDecode(s) == [EscapedByte(s)] + UrlDecode(s[3..]);
    } else {
      assert UrlDecode(s) == [s[0]] + UrlDecode(s[1..]);
    }
  }

  /** One turn of the decoding loop at index `i`. */
  method DecodeAt(s: bytes, i: nat) returns (b: byte, used: nat)
    requires i < |s|
    ensures b == FrontByte(s[i..]) && used == FrontLength(s[i..])
  {
    ghost var rest := s[i..];
    b, used := s[i], 1;
    if s[i] == PLUS {
      b := SPACE;
    } else if s[i] == PERCENT && i + 2 < |s| {
      var hi, lo := HexNibble(s[i + 1]), HexNibble(s[i + 2]);
      assert rest[1] == s[i + 1] && rest[2] == s[i + 2];
      if hi >= 0 && lo >= 0 {
        b, used := hi * 16 + lo, 3;
      }
    }
  }

  lemma Shifted(out: bytes, b: byte, rest: bytes)
    ensures out + ([b] + rest) == out + [b] + rest
  {
  }

  method DecodeValue(s: bytes) returns (out: bytes)
    ensures out == UrlDecode(s)
  {
    out := [];
    var i := 0;
    while i < |s|
      invariant 0 <= i <= |s|
      invariant out + UrlDecode(s[i..]) == UrlDecode(s)
    {
      var b, used := DecodeAt(s, i);
      FrontDecodes(s[i..]);
      assert s[i..][used..] == s[i + used..];
      Shifted(out, b, UrlDecode(s[i + used..]));
      out := out + [b];
      i := i + used;
    }
    assert out + [] == out;
  }

  /** The part of the target behind the path. */
  function Suffix(ps: seq<Param>): bytes
  {
    if ps == [] then [] else [QUESTION] + Join(ps)
  }

  lemma {:induction false} JoinSnoc(ps: seq<Param>, p: Param)
    requires ps != []
    ensures Join(ps + [p]) == Join(ps) + [AMPERSAND] + Pair(p)
    decreases |ps|
  {
    assert (ps + [p])[1..] == ps[1..] + [p];
    if |ps| == 1 {
      assert (ps + [p])[1..] == [p];
    } else {
      JoinSnoc(ps[1..], p);
    }
  }

  /** The loop of `buildRequest` over the parameter map, in key order. */
  method BuildTarget(path: bytes, ps: seq<Param>) returns (target: bytes)
    ensures target == Target(path, ps)
  {
    var params: bytes := [];
    var first := true;
    for i := 0 to |ps|
      invariant first == (i == 0)
      invariant params == Suffix(ps[..i])
    {
      assert ps[..i + 1] == ps[..i] + [ps[i]];
      if i > 0 {
        JoinSnoc(ps[..i], ps[i]);
      }
      params := params + (if first then [QUESTION] else [AMPERSAND]);
      params := params + (ps[i].key + [EQUALS] + ps[i].value);
      first := false;
    }
    assert ps[..|ps|] == ps;
    target := path + params;
  }

  lemma {:induction false} ParamsSnoc(ps: seq<bytes>, p: bytes)
    ensures ParseParams(ps + [p]) == ParseParams(ps) + ParseParam(p)
    decreases |ps|
  {
    if ps == [] {
      assert [p][1..] == [];
    } else {
      assert (ps + [p])[1..] == ps[1..] + [p];
      ParamsSnoc(ps[1..], p);
    }
  }

  /** `parse_function`. */
  method ParseFunction(target: bytes) returns (f: HttpFunction)
    ensures f == Parse(target)
  {
    if SLASH !in target {
      return HttpFunction(target, []);
    }
    var parts := Split(target, QUESTION);
    if |parts| == 1 {
      return HttpFunction(parts[0], []);
    }
    var params := Split(parts[1], AMPERSAND);
    var pairs: seq<Param> := [];
    for i := 0 to |params|
      invariant pairs == ParseParams(params[..i])
    {
      assert params[..i + 1] == params[..i] + [params[i]];
      ParamsSnoc(params[..i], params[i]);
      var pair := Split(params[i], EQUALS);
      if |pair| < 2 || pair[0] == [] {
        continue;
      }
      var value := DecodeValue(pair[1]);
      pairs := pairs + [Param(pair[0], value)];
    }
    assert params[..|params|] == params;
    f := HttpFunction(parts[0], pairs);
  }
}
