/**
  Parsed JSON values as JavaScript sees them after `JSON.parse`: property
  reads, JavaScript truthiness, and the exact text `JSON.stringify` writes for
  an array of strings, together with a reader for that text.
 */
module Json {
  import opened Wrappers

  /** A parsed JSON value. An object keeps its members in source order, duplicates included. */
  datatype Json =
    | Null
    | Bool(b: bool)
    | Number(n: real)
    | Str(s: string)
    | Array(items: seq<Json>)
    | Object(members: seq<Member>)

  datatype Member = Member(key: string, value: Json)

  /** The value `JSON.parse` keeps for `key`: the last member with that key wins. */
  function Lookup(ms: seq<Member>, key: string): (r: Option<Json>)
    ensures r.None? <==> forall i :: 0 <= i < |ms| ==> ms[i].key != key
    ensures r.Some? ==>
      exists i :: 0 <= i < |ms| && ms[i] == Member(key, r.value) && (forall j :: i < j < |ms| ==> ms[j].key != key)
  {
    if |ms| == 0 then None
    else if ms[|ms| - 1].key == key then Some(ms[|ms| - 1].value)
    else Lookup(ms[..|ms| - 1], key)
  }

  /** A key's value is that of its last member. */
  lemma {:induction false} LookupLast(ms: seq<Member>, i: nat, key: string)
    requires i < |ms| && ms[i].key == key
    requires forall j :: i < j < |ms| ==> ms[j].key != key
    ensures Lookup(ms, key) == Some(ms[i].value)
  {
    if i < |ms| - 1 {
      LookupLast(ms[..|ms| - 1], i, key);
    }
  }

  /** Appending a member under another key does not change what a key reads. */
  lemma LookupOtherKey(ms: seq<Member>, m: Member, key: string)
    requires m.key != key
    ensures Lookup(ms + [m], key) == Lookup(ms, key)
  {
    assert (ms + [m])[..|ms|] == ms;
  }

  /**
    The property read `v[key]` on a value other than `null` (reading a property
    of `null` throws instead). Only objects have the keys used here; on
    strings, numbers, booleans and arrays the read is `undefined`.
   */
  function Get(v: Json, key: string): (r: Option<Json>)
    requires !v.Null?
    ensures !v.Object? ==> r.None?
  {
    match v
    case Object(ms) => Lookup(ms, key)
    case _ => None
  }

  /** JavaScript truthiness of a property read; `undefined` is falsy. */
  predicate Truthy(v: Option<Json>)
  {
    match v
    case None => false
    case Some(Null) => false
    case Some(Bool(b)) => b
    case Some(Number(n)) => n != 0.0
    case Some(Str(s)) => s != ""
    case Some(Array(_)) => true
    case Some(Object(_)) => true
  }

  /** Arrays and objects are truthy even when empty; strings only when non-empty. */
  lemma TruthyShapes(s: string, items: seq<Json>, ms: seq<Member>)
    ensures Truthy(Some(Array(items))) && Truthy(Some(Object(ms)))
    ensures Truthy(Some(Str(s))) <==> s != ""
    ensures !Truthy(None) && !Truthy(Some(Null))
  {
  }

  // ---------------------------------------------------------------------
  // JSON.stringify of an array of strings, and its reader

  /** The lower-case hexadecimal digit for `n`. */
  function HexDigit(n: nat): char
    requires n < 16
  {
    if n < 10 then ('0' as int + n) as char else ('a' as int + n - 10) as char
  }

  /** The value of a hexadecimal digit of either case. */
  function HexValue(c: char): Option<nat>
  {
    if '0' <= c <= '9' then Some(c as int - '0' as int)
    else if 'a' <= c <= 'f' then Some(c as int - 'a' as int + 10)
    else if 'A' <= c <= 'F' then Some(c as int - 'A' as int + 10)
    else None
  }

  /** How `JSON.stringify` writes one character inside a string literal. */
  function EscapeChar(c: char): (r: string)
    ensures c >= ' ' && c != '"' && c != '\\' ==> r == [c]
    ensures !(c >= ' ' && c != '"' && c != '\\') ==> |r| >= 2 && r[0] == '\\'
  {
    if c == '"' then "\\\""
    else if c == '\\' then "\\\\"
    else if c == '\U{0008}' then "\\b"
    else if c == '\U{000C}' then "\\f"
    else if c == '\n' then "\\n"
    else if c == '\r' then "\\r"
    else if c == '\t' then "\\t"
    else if c < ' ' then "\\u00" + [HexDigit(c as int / 16), HexDigit(c as int % 16)]
    else [c]
  }

  /** The body of the string literal `JSON.stringify` writes for `s`. */
  function Escape(s: string): string
  {
    if |s| == 0 then "" else EscapeChar(s[0]) + Escape(s[1..])
  }

  /** `JSON.stringify(s)` for a string. */
  function Quote(s: string): string
  {
    "\"" + Escape(s) + "\""
  }

  /** The quoted items separated by commas. */
  function JoinQuoted(ts: seq<string>): string
  {
    if |ts| == 0 then ""
    else if |ts| == 1 then Quote(ts[0])
    else Quote(ts[0]) + ("," + JoinQuoted(ts[1..]))
  }

  /** `JSON.stringify(ts)` for an array of strings. */
  function StringifyStrings(ts: seq<string>): (r: string)
    ensures |r| >= 2 && r[0] == '[' && r[|r| - 1] == ']'
    ensures ts == [] <==> r == "[]"
  {
    "[" + JoinQuoted(ts) + "]"
  }

  /** The character a one-letter escape sequence stands for. */
  function ShortEscape(e: char): Option<char>
  {
    if e == '"' then Some('"')
    else if e == '\\' then Some('\\')
    else if e == '/' then Some('/')
    else if e == 'b' then Some('\U{0008}')
    else if e == 'f' then Some('\U{000C}')
    else if e == 'n' then Some('\n')
    else if e == 'r' then Some('\r')
    else if e == 't' then Some('\t')
    else None
  }

  /** The code unit written by four hexadecimal digits. */
  function Hex4(t: string): Option<nat>
    requires |t| >= 4
  {
    match (HexValue(t[0]), HexValue(t[1]), HexValue(t[2]), HexValue(t[3]))
    case (Some(a), Some(b), Some(c), Some(d)) => Some(((a * 16 + b) * 16 + c) * 16 + d)
    case _ => None
  }

  /** Puts `c` in front of the string a successful read produced. */
  function Prepend(c: char, r: Option<(string, string)>): Option<(string, string)>
  {
    match r
    case None => None
    case Some((v, rest)) => Some(([c] + v, rest))
  }

  /**
    Reads a string literal whose opening quote has been consumed: the decoded
    value and the text after the closing quote. Surrogate pairs are not decoded.
   */
  function ReadChars(t: string): (r: Option<(string, string)>)
    ensures r.Some? ==> |r.value.1| < |t|
    decreases |t|
  {
    if |t| == 0 then None
    else if t[0] == '"' then Some(("", t[1..]))
    else if t[0] == '\\' then
      if |t| < 2 then None
      else if t[1] == 'u' then
        if |t| < 6 then None
        else match Hex4(t[2..6])
          case None => None
          case Some(code) =>
            if 0xD800 <= code < 0xE000 then None
            else Prepend(code as char, ReadChars(t[6..]))
      else match ShortEscape(t[1])
        case None => None
        case Some(c) => Prepend(c, ReadChars(t[2..]))
    else if t[0] < ' ' then None
    else Prepend(t[0], ReadChars(t[1..]))
  }

  /** Reads one or more string literals separated by commas, up to the closing bracket. */
  function ReadItems(t: string): Option<seq<string>>
    decreases |t|
  {
    if |t| == 0 || t[0] != '"' then None
    else match ReadChars(t[1..])
      case None => None
      case Some((v, rest)) =>
        if rest == "]" then Some([v])
        else if |rest| > 0 && rest[0] == ',' then
          match ReadItems(rest[1..])
          case None => None
          case Some(vs) => Some([v] + vs)
        else None
  }

  /** `JSON.parse` of the compact text of an array of strings (no white space between tokens). */
  function ParseStrings(t: string): (r: Option<seq<string>>)
    ensures r.Some? ==> |t| > 0 && t[0] == '['
    ensures t == "[]" ==> r == Some([])
  {
    if t == "[]" then Some([])
    else if |t| > 0 && t[0] == '[' then ReadItems(t[1..])
    else None
  }

  /** Reading back the escape of one character yields that character and leaves the rest. */
  lemma ReadEscapedChar(c: char, t: string)
    ensures ReadChars(EscapeChar(c) + t) == Prepend(c, ReadChars(t))
  {
    var e := EscapeChar(c);
    if c == '"' || c == '\\' || c == '\U{0008}' || c == '\U{000C}' || c == '\n' || c == '\r' || c == '\t' {
      assert (e + t)[2..] == t;
    } else if c < ' ' {
      var hi := c as int / 16;
      var lo := c as int % 16;
      assert (e + t)[2..6] == ['0', '0', HexDigit(hi), HexDigit(lo)];
      assert HexValue(HexDigit(hi)) == Some(hi);
      assert HexValue(HexDigit(lo)) == Some(lo);
      assert Hex4((e + t)[2..6]) == Some(c as int);
      assert (e + t)[6..] == t;
    } else {
      assert (e + t)[1..] == t;
    }
  }

  /** Reading back an escaped string up to its closing quote yields the string and the rest. */
  lemma {:induction false} ReadEscaped(s: string, rest: string)
    ensures ReadChars(Escape(s) + "\"" + rest) == Some((s, rest))
  {
    if |s| == 0 {
      assert Escape(s) + "\"" + rest == "\"" + rest;
    } else {
      var tail := Escape(s[1..]) + "\"" + rest;
      assert Escape(s) + "\"" + rest == EscapeChar(s[0]) + tail;
      ReadEscapedChar(s[0], tail);
      ReadEscaped(s[1..], rest);
      assert [s[0]] + s[1..] == s;
    }
  }

  /** What `ReadItems` does once the first string literal of `t` has been read. */
  lemma ReadItemsStep(t: string, v: string, more: string)
    requires |t| > 0 && t[0] == '"' && ReadChars(t[1..]) == Some((v, more))
    ensures more == "]" ==> ReadItems(t) == Some([v])
    ensures more != "]" && |more| > 0 && more[0] == ',' && ReadItems(more[1..]).Some? ==>
      ReadItems(t) == Some([v] + ReadItems(more[1..]).value)
  {
  }

  /** Reading a quoted string followed by `more` reads the string, then continues on `more`. */
  lemma ReadQuoted(v: string, more: string)
    ensures more == "]" ==> ReadItems(Quote(v) + more) == Some([v])
    ensures more != "]" && |more| > 0 && more[0] == ',' && ReadItems(more[1..]).Some? ==>
      ReadItems(Quote(v) + more) == Some([v] + ReadItems(more[1..]).value)
  {
    var t := Quote(v) + more;
    assert t[1..] == Escape(v) + "\"" + more;
    ReadEscaped(v, more);
    ReadItemsStep(t, v, more);
  }

  /** The bracketed text of a non-empty list: its first quoted item, then a comma and the rest or the bracket. */
  lemma JoinShape(ts: seq<string>)
    requires |ts| > 0
    ensures |ts| == 1 ==> JoinQuoted(ts) + "]" == Quote(ts[0]) + "]"
    ensures |ts| > 1 ==> JoinQuoted(ts) + "]" == Quote(ts[0]) + ("," + (JoinQuoted(ts[1..]) + "]"))
  {
    if |ts| > 1 {
      var a, b, c := Quote(ts[0]), ",", JoinQuoted(ts[1..]);
      assert JoinQuoted(ts) == a + (b + c);
      SeqAssoc(a, b + c, "]");
      SeqAssoc(b, c, "]");
    }
  }

  /** Concatenation regroups. */
  lemma SeqAssoc(a: string, b: string, c: string)
    ensures (a + b) + c == a + (b + c)
  {
  }

  /** Reading back a non-empty comma-separated run of quoted strings and its bracket yields the strings. */
  lemma {:induction false} ReadJoined(ts: seq<string>)
    requires |ts| > 0
    ensures ReadItems(JoinQuoted(ts) + "]") == Some(ts)
  {
    JoinShape(ts);
    if |ts| == 1 {
      ReadQuoted(ts[0], "]");
      assert [ts[0]] == ts;
    } else {
      var more := "," + (JoinQuoted(ts[1..]) + "]");
      ReadJoined(ts[1..]);
      assert more[1..] == JoinQuoted(ts[1..]) + "]";
      ReadQuoted(ts[0], more);
      assert [ts[0]] + ts[1..] == ts;
    }
  }

  /** `JSON.parse(JSON.stringify(ts))` gives back exactly `ts`, for every array of strings. */
  lemma StringifyRoundTrip(ts: seq<string>)
    ensures ParseStrings(StringifyStrings(ts)) == Some(ts)
  {
    var t := StringifyStrings(ts);
    if |ts| == 0 {
      assert t == "[]";
    } else {
      assert JoinQuoted(ts)[0] == '"';
      assert t != "[]";
      assert t[1..] == JoinQuoted(ts) + "]";
      ReadJoined(ts);
    }
  }
}
