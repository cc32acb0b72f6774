/**
 * JSON values as the front end handles them (the request payload it sends and
 * the error body it reads back) and their serialisation by `JSON.stringify`.
 *
 * A number is modelled as an integer; an object is the list of its own
 * properties in property order. A JavaScript object never has two properties
 * with one key; the list type does not rule that out (see Lookup).
 */
module JsonText {
  import opened Wrappers

  datatype Json =
    | JNull
    | JBool(b: bool)
    | JNum(n: int)
    | JStr(s: string)
    | JArr(elems: seq<Json>)
    | JObj(members: seq<(string, Json)>)

  /**
   * The value of the own property `key` of an object's member list, if any:
   * that of the first member with the key (a list holding the key twice is
   * not an object `JSON.parse` can return).
   */
  function Lookup(members: seq<(string, Json)>, key: string): (r: Option<Json>)
    ensures r.Some? ==> exists i :: 0 <= i < |members| && members[i] == (key, r.value)
    ensures r.None? ==> forall i :: 0 <= i < |members| ==> members[i].0 != key
  {
    if |members| == 0 then None
    else if members[0].0 == key then Some(members[0].1)
    else
      var r := Lookup(members[1..], key);
      assert forall i :: 0 < i < |members| ==> members[i] == members[1..][i - 1];
      r
  }

  /** The number a string of decimal digits denotes, most significant digit first. */
  function DigitsValue(t: string): nat
    requires forall i :: 0 <= i < |t| ==> '0' <= t[i] <= '9'
    decreases |t|
  {
    if |t| == 0 then 0 else DigitsValue(t[..|t| - 1]) * 10 + (t[|t| - 1] - '0') as nat
  }

  /**
   * The decimal digits of a natural number, most significant first: they
   * denote the number, and only zero itself is written with a leading zero.
   */
  function Digits(n: nat): (r: string)
    ensures |r| > 0
    ensures forall i :: 0 <= i < |r| ==> '0' <= r[i] <= '9'
    ensures DigitsValue(r) == n
    ensures r[0] == '0' ==> r == "0"
    decreases n
  {
    var d := ['0' + (n % 10) as char];
    if n < 10 then d
    else
      var high := Digits(n / 10);
      assert (high + d)[..|high + d| - 1] == high;
      high + d
  }

  /** `String(n)` for an integer-valued number. */
  function Decimal(n: int): (r: string)
    ensures Printable(r)
  {
    if n < 0 then "-" + Digits(-n) else Digits(n)
  }

  /** Text without control characters: `JSON.stringify` without indentation writes one line. */
  predicate Printable(t: string)
  {
    forall i :: 0 <= i < |t| ==> t[i] >= ' '
  }

  /** Printable texts put together stay printable. */
  lemma PrintableConcat(a: string, b: string)
    requires Printable(a) && Printable(b)
    ensures Printable(a + b)
  {
    assert forall i :: |a| <= i < |a + b| ==> (a + b)[i] == b[i - |a|];
  }

  const Backspace: char := 8 as char
  const FormFeed: char := 12 as char

  /** The control characters `JSON.stringify` writes as a two-character escape. */
  predicate ShortControl(c: char)
  {
    c == Backspace || c == '\t' || c == '\n' || c == FormFeed || c == '\r'
  }

  const HexDigits: string := "0123456789abcdef"

  /**
   * The escape `JSON.stringify` writes for one character of a string: the
   * seven two-character escapes, `\u00xx` in lower-case hexadecimal for the
   * other control characters, and the character itself otherwise.
   */
  function EscapeChar(c: char): (r: string)
    ensures |r| > 0
    ensures (r[0] == '\\') <==> (c == '"' || c == '\\' || c < ' ')
    ensures r[0] != '"'
    ensures forall i :: 0 <= i < |r| ==> r[i] >= ' '
  {
    if c == '"' then "\\\""
    else if c == '\\' then "\\\\"
    else if c == Backspace then "\\b"
    else if c == '\t' then "\\t"
    else if c == '\n' then "\\n"
    else if c == FormFeed then "\\f"
    else if c == '\r' then "\\r"
    else if c < ' ' then ControlEscape(c as nat)
    else [c]
  }

  /** `\u00xx` with the code in two lower-case hexadecimal digits. */
  function ControlEscape(code: nat): (r: string)
    requires code < 32
    ensures |r| == 6 && r[0] == '\\' && r[1] == 'u'
    ensures forall i :: 0 <= i < |r| ==> r[i] >= ' '
  {
    "\\u00" + [HexDigits[code / 16], HexDigits[code % 16]]
  }

  /** Two hexadecimal digits below 2 and 16 give back the code they were cut from. */
  lemma HexCode(hi: nat, lo: nat)
    requires hi < 2 && lo < 16
    ensures (hi * 16 + lo) / 16 == hi && (hi * 16 + lo) % 16 == lo
  {
    if hi == 0 {
      assert hi * 16 + lo == lo;
    } else {
      assert hi * 16 + lo == 16 + lo;
    }
  }

  /** A `\u00` followed by the digits of `hi` and `lo` is the escape of their code. */
  lemma ReadControlEscape(t: string, hi: nat, lo: nat)
    requires |t| >= 6 && t[0] == '\\' && t[1] == 'u' && t[2] == '0' && t[3] == '0'
    requires hi < 2 && lo < 16 && t[4] == HexDigits[hi] && t[5] == HexDigits[lo]
    ensures t[..6] == ControlEscape(hi * 16 + lo)
  {
    HexCode(hi, lo);
    assert t[..6] == "\\u00" + [t[4], t[5]];
  }

  /** The escape of a control character without a two-character escape. */
  lemma ControlEscapeOfCode(code: nat)
    requires code < 32 && !ShortControl(code as char)
    ensures EscapeChar(code as char) == ControlEscape(code)
  {
  }

  /** Each hexadecimal digit reads back as its position. */
  lemma HexDigitValue(d: nat)
    requires d < 16
    ensures HexValue(HexDigits[d]) == Some(d)
  {
    var v := HexValue(HexDigits[d]);
    assert v.Some?;
    assert HexDigits[v.value] == HexDigits[d];
  }

  /** The body of the quoted string `JSON.stringify` writes for `s`. */
  function Escape(s: string): (r: string)
    ensures |r| >= |s|
    ensures forall i :: 0 <= i < |r| ==> r[i] >= ' '
  {
    if |s| == 0 then "" else
      var h, t := EscapeChar(s[0]), Escape(s[1..]);
      assert forall i :: |h| <= i < |h + t| ==> (h + t)[i] == t[i - |h|];
      h + t
  }

  /** The position of `c` in HexDigits, if it is one of them. */
  function HexValue(c: char): (r: Option<nat>)
    ensures r.Some? ==> r.value < 16 && HexDigits[r.value] == c
    ensures r.None? ==> c !in HexDigits
  {
    if '0' <= c <= '9' then Some((c - '0') as nat)
    else if 'a' <= c <= 'f' then Some((c - 'a') as nat + 10)
    else None
  }

  /**
   * Reads a `\u00xx` escape from the front of `t`, accepting exactly the
   * escapes EscapeChar writes for control characters.
   */
  function UnescapeControl(t: string): (r: Option<(char, nat)>)
    requires |t| >= 2 && t[0] == '\\' && t[1] == 'u'
    ensures r.Some? ==> r.value.1 == 6 <= |t|
  {
    if |t| >= 6 && t[2] == '0' && t[3] == '0' then
      var hi, lo := HexValue(t[4]), HexValue(t[5]);
      if hi.Some? && lo.Some? && hi.value < 2 then
        var code := hi.value * 16 + lo.value;
        if ShortControl(code as char) then None else Some((code as char, 6))
      else None
    else None
  }

  /** What UnescapeControl reads is the escape EscapeChar writes for the character it returns. */
  lemma UnescapeControlSound(t: string)
    requires |t| >= 2 && t[0] == '\\' && t[1] == 'u'
    ensures UnescapeControl(t).Some? ==> t[..6] == EscapeChar(UnescapeControl(t).value.0)
  {
    if UnescapeControl(t).Some? {
      var hi, lo := HexValue(t[4]).value, HexValue(t[5]).value;
      var code := hi * 16 + lo;
      ReadControlEscape(t, hi, lo);
      ControlEscapeOfCode(code);
    }
  }

  /**
   * Reads one escape or character from the front of `t`, accepting exactly
   * what EscapeChar writes: the decoded character and the length read.
   */
  function UnescapeHead(t: string): (r: Option<(char, nat)>)
    requires |t| > 0
    ensures r.Some? ==> 0 < r.value.1 <= |t| && t[..r.value.1] == EscapeChar(r.value.0)
  {
    if t[0] == '\\' then
      if |t| < 2 then None
      else if t[1] == '"' then Some(('"', 2))
      else if t[1] == '\\' then Some(('\\', 2))
      else if t[1] == 'b' then Some((Backspace, 2))
      else if t[1] == 't' then Some(('\t', 2))
      else if t[1] == 'n' then Some(('\n', 2))
      else if t[1] == 'f' then Some((FormFeed, 2))
      else if t[1] == 'r' then Some(('\r', 2))
      else if t[1] == 'u' then UnescapeControlSound(t); UnescapeControl(t)
      else None
    else if t[0] == '"' || t[0] < ' ' then None
    else Some((t[0], 1))
  }

  /** Decodes the body of a quoted string written by `JSON.stringify`. */
  function Unescape(t: string): (r: Option<string>)
    decreases |t|
  {
    if |t| == 0 then Some("")
    else match UnescapeHead(t)
      case None => None
      case Some((c, n)) =>
        match Unescape(t[n..])
        case None => None
        case Some(rest) => Some([c] + rest)
  }

  /** UnescapeHead reads back exactly the escape EscapeChar wrote, whatever follows it. */
  lemma UnescapeHeadOfEscapeChar(c: char, rest: string)
    ensures UnescapeHead(EscapeChar(c) + rest) == Some((c, |EscapeChar(c)|))
  {
    if c < ' ' && !ShortControl(c) {
      UnescapeControlOfEscapeChar(c, rest);
    } else if c == '"' || c == '\\' || ShortControl(c) {
      TwoCharEscape(c, rest);
    } else {
      assert EscapeChar(c) == [c];
    }
  }

  /** UnescapeHead reads back the two-character escapes. */
  lemma TwoCharEscape(c: char, rest: string)
    requires c == '"' || c == '\\' || ShortControl(c)
    ensures UnescapeHead(EscapeChar(c) + rest) == Some((c, 2))
  {
    var e := EscapeChar(c);
    assert |e| == 2 && e[0] == '\\';
    assert (e + rest)[1] == e[1];
  }

  /** UnescapeControl reads back exactly the `\u00xx` escape EscapeChar wrote. */
  lemma UnescapeControlOfEscapeChar(c: char, rest: string)
    requires c < ' ' && !ShortControl(c)
    ensures var t := EscapeChar(c) + rest;
            |t| >= 2 && t[0] == '\\' && t[1] == 'u' && UnescapeControl(t) == Some((c, 6))
  {
    var code := c as nat;
    var t := ControlEscape(code) + rest;
    ControlEscapeOfCode(code);
    assert t[4] == HexDigits[code / 16] && t[5] == HexDigits[code % 16];
    HexDigitValue(code / 16);
    HexDigitValue(code % 16);
  }

  /** Escaping loses nothing: Unescape recovers every string. */
  lemma {:induction false} UnescapeEscape(s: string)
    ensures Unescape(Escape(s)) == Some(s)
    decreases |s|
  {
    if |s| > 0 {
      var h, t := EscapeChar(s[0]), Escape(s[1..]);
      UnescapeHeadOfEscapeChar(s[0], t);
      assert (h + t)[|h|..] == t;
      UnescapeEscape(s[1..]);
      assert [s[0]] + s[1..] == s;
    }
  }

  /** Unescape accepts nothing but what Escape writes. */
  lemma {:induction false} EscapeUnescape(t: string, s: string)
    requires Unescape(t) == Some(s)
    ensures Escape(s) == t
    decreases |t|
  {
    if |t| > 0 {
      var Some((c, n)) := UnescapeHead(t);
      var Some(rest) := Unescape(t[n..]);
      assert s == [c] + rest;
      EscapeUnescape(t[n..], rest);
      EscapeCons(c, rest);
      assert t == t[..n] + t[n..];
    }
  }

  /** Escaping a string with a first character escapes that character, then the rest. */
  lemma EscapeCons(c: char, rest: string)
    ensures Escape([c] + rest) == EscapeChar(c) + Escape(rest)
  {
    assert ([c] + rest)[1..] == rest;
  }

  /** `JSON.stringify` of a string: its escaped body between double quotes. */
  function Quote(s: string): (r: string)
    ensures Printable(r)
  {
    var e := Escape(s);
    PrintableConcat("\"", e);
    PrintableConcat("\"" + e, "\"");
    "\"" + e + "\""
  }

  /** `JSON.stringify(v)`, without any indentation: a single line without control characters. */
  function Stringify(v: Json): (r: string)
    ensures Printable(r)
    decreases v, 1
  {
    match v
    case JNull => "null"
    case JBool(b) => if b then "true" else "false"
    case JNum(n) => Decimal(n)
    case JStr(s) => Quote(s)
    case JArr(elems) => Enclose("[", StringifyElems(v, 0), "]")
    case JObj(members) => Enclose("{", StringifyMembers(v, 0), "}")
  }

  /** `inner` between `open` and `close`. */
  function Enclose(open: string, inner: string, close: string): (r: string)
    requires Printable(open) && Printable(inner) && Printable(close)
    ensures Printable(r)
  {
    PrintableConcat(open, inner);
    PrintableConcat(open + inner, close);
    open + inner + close
  }

  /** The elements of the array `v` from index `i` on, separated by commas. */
  function StringifyElems(v: Json, i: nat): (r: string)
    requires v.JArr?
    ensures Printable(r)
    decreases v, 0, |v.elems| - i
  {
    if i >= |v.elems| then ""
    else
      Enclose(if i > 0 then "," else "", Stringify(v.elems[i]), StringifyElems(v, i + 1))
  }

  /** The members of the object `v` from index `i` on, as `"key":value`, separated by commas. */
  function StringifyMembers(v: Json, i: nat): (r: string)
    requires v.JObj?
    ensures Printable(r)
    decreases v, 0, |v.members| - i
  {
    if i >= |v.members| then ""
    else
      var m := v.members[i];
      assert m.1 < m;
      Enclose(if i > 0 then "," else "", Enclose(Quote(m.0), ":", Stringify(m.1)), StringifyMembers(v, i + 1))
  }
}
