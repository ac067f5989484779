/** The JSON text stored in the `primary_muscles` and `fields` columns.
    `Encode` writes what `JSON.stringify` writes for these values (no whitespace,
    the escapes of ECMA-262 section 25.5.2.3 QuoteJSONString); `Parse` accepts
    the grammar of RFC 8259 minus numbers, and keeps every member of an object,
    a repeated key included. The round-trip lemmas are the partner of the
    encoder: parsing what was encoded gives back the value. */
module Json {
  import opened Wrappers

  datatype JValue =
    | JNull
    | JBool(b: bool)
    | JString(s: string)
    | JArray(items: seq<JValue>)
    | JObject(members: seq<Member>)

  datatype Member = Member(key: string, value: JValue)

  // ---------------------------------------------------------------------------
  // Encoding.

  const HexDigits: string := "0123456789abcdef"

  function EscapeChar(c: char): (r: string)
    ensures r != [] && r[0] != '"'
  {
    if c == '"' then "\\\""
    else if c == '\\' then "\\\\"
    else if c == '\U{0008}' then "\\b"
    else if c == '\U{000C}' then "\\f"
    else if c == '\n' then "\\n"
    else if c == '\r' then "\\r"
    else if c == '\t' then "\\t"
    else if c < ' ' then "\\u00" + [HexDigits[c as int / 16], HexDigits[c as int % 16]]
    else [c]
  }

  function Escape(s: string): string
    decreases |s|
  {
    if s == [] then [] else EscapeChar(s[0]) + Escape(s[1..])
  }

  function Quote(s: string): string {
    "\"" + Escape(s) + "\""
  }

  /** The characters an encoded value can start with. */
  predicate StartsValue(c: char) {
    c == 'n' || c == 't' || c == 'f' || c == '"' || c == '[' || c == '{'
  }

  function Encode(v: JValue): (r: string)
    decreases v, 1
    ensures r != [] && StartsValue(r[0])
  {
    match v
    case JNull => "null"
    case JBool(b) => if b then "true" else "false"
    case JString(s) => Quote(s)
    case JArray(items) => "[" + (if items == [] then "" else ItemsText(v, 0)) + "]"
    case JObject(ms) => "{" + (if ms == [] then "" else MembersText(v, 0)) + "}"
  }

  /** The encoded elements `items[k..]`, separated by commas. */
  function ItemsText(v: JValue, k: nat): (r: string)
    requires v.JArray? && k < |v.items|
    ensures r != [] && StartsValue(r[0])
    decreases v, 0, |v.items| - k
  {
    Encode(v.items[k]) + (if k + 1 == |v.items| then "" else "," + ItemsText(v, k + 1))
  }

  function EncodeMember(m: Member): (r: string)
    ensures r != [] && r[0] == '"'
    decreases m
  {
    Quote(m.key) + ":" + Encode(m.value)
  }

  /** The encoded members `members[k..]`, separated by commas. */
  function MembersText(v: JValue, k: nat): (r: string)
    requires v.JObject? && k < |v.members|
    ensures r != [] && r[0] == '"'
    decreases v, 0, |v.members| - k
  {
    EncodeMember(v.members[k]) + (if k + 1 == |v.members| then "" else "," + MembersText(v, k + 1))
  }

  // ---------------------------------------------------------------------------
  // Parsing.

  predicate IsWs(c: char) {
    c == ' ' || c == '\t' || c == '\n' || c == '\r'
  }

  function SkipWs(s: string): (r: string)
    ensures |r| <= |s|
    ensures s != [] && !IsWs(s[0]) ==> r == s
  {
    if s != [] && IsWs(s[0]) then SkipWs(s[1..]) else s
  }

  function HexValue(c: char): Option<nat> {
    if '0' <= c <= '9' then Some(c as int - '0' as int)
    else if 'a' <= c <= 'f' then Some(c as int - 'a' as int + 10)
    else if 'A' <= c <= 'F' then Some(c as int - 'A' as int + 10)
    else None
  }

  function Hex4(s: string): (r: Option<nat>)
    requires |s| == 4
    ensures r.Some? ==> r.value < 0x10000
  {
    match (HexValue(s[0]), HexValue(s[1]), HexValue(s[2]), HexValue(s[3]))
    case (Some(a), Some(b), Some(c), Some(d)) =>
      if a < 16 && b < 16 && c < 16 && d < 16 then Some(((a * 16 + b) * 16 + c) * 16 + d) else None
    case _ => None
  }

  /** One character of a string body: an escape sequence or a plain character. */
  function ParseChar(s: string): (r: Option<(char, string)>)
    ensures r.Some? ==> |r.value.1| < |s|
  {
    if s == [] then None
    else if s[0] == '\\' then
      if |s| < 2 then None
      else if s[1] == '"' then Some(('"', s[2..]))
      else if s[1] == '\\' then Some(('\\', s[2..]))
      else if s[1] == '/' then Some(('/', s[2..]))
      else if s[1] == 'b' then Some(('\U{0008}', s[2..]))
      else if s[1] == 'f' then Some(('\U{000C}', s[2..]))
      else if s[1] == 'n' then Some(('\n', s[2..]))
      else if s[1] == 'r' then Some(('\r', s[2..]))
      else if s[1] == 't' then Some(('\t', s[2..]))
      else if s[1] == 'u' && |s| >= 6 then
        match Hex4(s[2..6])
        case None => None
        case Some(code) =>
          if 0xD800 <= code < 0xE000 then None else Some((code as char, s[6..]))
      else None
    else if s[0] < ' ' || s[0] == '"' then None
    else Some((s[0], s[1..]))
  }

  /** The characters of a string up to its closing quote, and what follows it. */
  function ParseStringBody(s: string): (r: Option<(string, string)>)
    ensures r.Some? ==> |r.value.1| < |s|
    decreases |s|
  {
    if s == [] then None
    else if s[0] == '"' then Some(([], s[1..]))
    else
      match ParseChar(s)
      case None => None
      case Some((c, rest)) =>
        match ParseStringBody(rest)
        case None => None
        case Some((t, after)) => Some(([c] + t, after))
  }

  /** A string literal, quotes included. */
  function ParseString(s: string): (r: Option<(string, string)>)
    ensures r.Some? ==> |r.value.1| < |s|
  {
    if s == [] || s[0] != '"' then None else ParseStringBody(s[1..])
  }

  function ParseValue(s: string): (r: Option<(JValue, string)>)
    ensures r.Some? ==> |r.value.1| < |s|
    decreases |s|, 0
  {
    if s == [] then None
    else if s[0] == 'n' then
      if |s| >= 4 && s[..4] == "null" then Some((JNull, s[4..])) else None
    else if s[0] == 't' then
      if |s| >= 4 && s[..4] == "true" then Some((JBool(true), s[4..])) else None
    else if s[0] == 'f' then
      if |s| >= 5 && s[..5] == "false" then Some((JBool(false), s[5..])) else None
    else if s[0] == '"' then
      match ParseString(s)
      case None => None
      case Some((t, rest)) => Some((JString(t), rest))
    else if s[0] == '[' then
      var t := SkipWs(s[1..]);
      if t != [] && t[0] == ']' then Some((JArray([]), t[1..])) else ParseElements(t, [])
    else if s[0] == '{' then
      var t := SkipWs(s[1..]);
      if t != [] && t[0] == '}' then Some((JObject([]), t[1..])) else ParseMembers(t, [])
    else None
  }

  /** The elements of an array after its opening bracket; `acc` holds those read so far. */
  function ParseElements(s: string, acc: seq<JValue>): (r: Option<(JValue, string)>)
    ensures r.Some? ==> |r.value.1| < |s|
    decreases |s|, 1
  {
    match ParseValue(s)
    case None => None
    case Some((v, rest)) =>
      var t := SkipWs(rest);
      if t == [] then None
      else if t[0] == ']' then Some((JArray(acc + [v]), t[1..]))
      else if t[0] == ',' then ParseElements(SkipWs(t[1..]), acc + [v])
      else None
  }

  /** The members of an object after its opening brace; `acc` holds those read so far. */
  function ParseMembers(s: string, acc: seq<Member>): (r: Option<(JValue, string)>)
    ensures r.Some? ==> |r.value.1| < |s|
    decreases |s|, 1
  {
      match ParseString(s)
      case None => None
      case Some((key, rest)) =>
        var t := SkipWs(rest);
        if t == [] || t[0] != ':' then None
        else
          match ParseValue(SkipWs(t[1..]))
          case None => None
          case Some((v, rest2)) =>
            var u := SkipWs(rest2);
            if u == [] then None
            else if u[0] == '}' then Some((JObject(acc + [Member(key, v)]), u[1..]))
            else if u[0] == ',' then ParseMembers(SkipWs(u[1..]), acc + [Member(key, v)])
            else None
  }

  /** `JSON.parse`: one value, optionally surrounded by whitespace; None where
      `JSON.parse` would throw. */
  function Parse(text: string): Option<JValue> {
    match ParseValue(SkipWs(text))
    case None => None
    case Some((v, rest)) => if SkipWs(rest) == [] then Some(v) else None
  }

  // ---------------------------------------------------------------------------
  // Round trip.

  lemma ParseEscapeChar(c: char, rest: string)
    ensures ParseChar(EscapeChar(c) + rest) == Some((c, rest))
  {
    if c < ' ' && c != '\U{0008}' && c != '\U{000C}' && c != '\n' && c != '\r' && c != '\t' {
      ParseUnicodeEscape(c, rest);
    } else if c == '"' || c == '\\' || c == '\U{0008}' || c == '\U{000C}' || c == '\n' || c == '\r' || c == '\t' {
      assert (EscapeChar(c) + rest)[2..] == rest;
    } else {
      assert (EscapeChar(c) + rest)[1..] == rest;
    }
  }

  /** A control character without a short escape reads back from its `\u00XX` form. */
  lemma ParseUnicodeEscape(c: char, rest: string)
    requires c < ' ' && c != '\U{0008}' && c != '\U{000C}' && c != '\n' && c != '\r' && c != '\t'
    ensures ParseChar(EscapeChar(c) + rest) == Some((c, rest))
  {
    var hi := c as int / 16;
    var lo := c as int % 16;
    var s := "\\u00" + [HexDigits[hi], HexDigits[lo]] + rest;
    assert EscapeChar(c) + rest == s;
    assert s[0] == '\\' && s[1] == 'u' && s[2..6] == ['0', '0', HexDigits[hi], HexDigits[lo]];
    Hex4Low(hi, lo);
    assert s[6..] == rest;
  }

  /** Four hex digits "00" + hi + lo read as the code point they spell. */
  lemma Hex4Low(hi: nat, lo: nat)
    requires hi < 2 && lo < 16
    ensures Hex4(['0', '0', HexDigits[hi], HexDigits[lo]]) == Some(hi * 16 + lo)
  {
    HexDigitValue(hi);
    HexDigitValue(lo);
  }

  lemma HexDigitValue(d: nat)
    requires d < 16
    ensures HexValue(HexDigits[d]) == Some(d)
  {
  }

  lemma {:induction false} ParseEscaped(s: string, rest: string)
    ensures ParseStringBody(Escape(s) + "\"" + rest) == Some((s, rest))
    decreases |s|
  {
    if s == [] {
      assert Escape(s) + "\"" + rest == "\"" + rest;
      assert ("\"" + rest)[1..] == rest;
    } else {
      var e := EscapeChar(s[0]);
      var tail := Escape(s[1..]) + "\"" + rest;
      assert Escape(s) + "\"" + rest == e + tail;
      ParseEscapeChar(s[0], tail);
      ParseEscaped(s[1..], rest);
      ParseBodyCons(e, s[0], tail, s[1..], rest);
      assert [s[0]] + s[1..] == s;
    }
  }

  /** A string body that starts with one character's text reads that character first. */
  lemma ParseBodyCons(e: string, c: char, tail: string, t: string, after: string)
    requires e != [] && e[0] != '"'
    requires ParseChar(e + tail) == Some((c, tail))
    requires ParseStringBody(tail) == Some((t, after))
    ensures ParseStringBody(e + tail) == Some(([c] + t, after))
  {
    assert (e + tail)[0] == e[0];
  }

  lemma ParseQuoted(s: string, rest: string)
    ensures ParseString(Quote(s) + rest) == Some((s, rest))
  {
    var body := Escape(s) + "\"" + rest;
    var q := "\"" + body;
    assert Quote(s) + rest == q;
    assert q[0] == '"' && q[1..] == body;
    ParseStringOpen(q, body);
    ParseEscaped(s, rest);
  }

  lemma ParseStringOpen(q: string, body: string)
    requires q != [] && q[0] == '"' && q[1..] == body
    ensures ParseString(q) == ParseStringBody(body)
  {
  }

  /** Parsing an encoded value consumes exactly its encoding, whatever follows. */
  lemma {:induction false} ParseEncoded(v: JValue, rest: string)
    ensures ParseValue(Encode(v) + rest) == Some((v, rest))
    decreases v, 1
  {
    match v
    case JArray(_) => ParseEncodedArray(v, rest);
    case JObject(_) => ParseEncodedObject(v, rest);
    case _ => ParseEncodedScalar(v, rest);
  }

  lemma ParseEncodedScalar(v: JValue, rest: string)
    requires !v.JArray? && !v.JObject?
    ensures ParseValue(Encode(v) + rest) == Some((v, rest))
  {
    var s := Encode(v) + rest;
    match v
    case JNull =>
      assert s[..4] == "null" && s[4..] == rest;
    case JBool(b) =>
      if b {
        assert s[..4] == "true" && s[4..] == rest;
      } else {
        assert s[..5] == "false" && s[5..] == rest;
      }
    case JString(t) =>
      ParseQuoted(t, rest);
      assert s[0] == '"';
  }

  lemma {:induction false} ParseEncodedArray(v: JValue, rest: string)
    requires v.JArray?
    ensures ParseValue(Encode(v) + rest) == Some((v, rest))
    decreases v, 0, |v.items| + 1
  {
    var s := Encode(v) + rest;
    if v.items == [] {
      assert s[1..] == "]" + rest;
      assert ("]" + rest)[1..] == rest;
    } else {
      var body := ItemsText(v, 0) + "]" + rest;
      assert s == "[" + body;
      assert s[0] == '[' && s[1..] == body;
      assert body[0] == ItemsText(v, 0)[0];
      ParseArrayOpen(s, body);
      ParseEncodedElements(v, 0, [], rest);
      assert [] + v.items[0..] == v.items;
    }
  }

  lemma {:induction false} ParseEncodedObject(v: JValue, rest: string)
    requires v.JObject?
    ensures ParseValue(Encode(v) + rest) == Some((v, rest))
    decreases v, 0, |v.members| + 1
  {
    var s := Encode(v) + rest;
    if v.members == [] {
      assert s[1..] == "}" + rest;
      assert ("}" + rest)[1..] == rest;
    } else {
      var body := MembersText(v, 0) + "}" + rest;
      assert s == "{" + body;
      assert s[0] == '{' && s[1..] == body;
      assert body[0] == MembersText(v, 0)[0];
      ParseObjectOpen(s, body);
      ParseEncodedMembers(v, 0, [], rest);
      assert [] + v.members[0..] == v.members;
    }
  }

  /** An array whose first element starts right after the bracket. */
  lemma ParseArrayOpen(s: string, body: string)
    requires s != [] && s[0] == '[' && s[1..] == body
    requires body != [] && StartsValue(body[0])
    ensures ParseValue(s) == ParseElements(body, [])
  {
    assert SkipWs(body) == body;
  }

  /** An object whose first member starts right after the brace. */
  lemma ParseObjectOpen(s: string, body: string)
    requires s != [] && s[0] == '{' && s[1..] == body
    requires body != [] && body[0] == '"'
    ensures ParseValue(s) == ParseMembers(body, [])
  {
    assert SkipWs(body) == body;
  }

  lemma AppendSlice<T>(acc: seq<T>, s: seq<T>, k: nat)
    requires k < |s|
    ensures acc + [s[k]] + s[k + 1..] == acc + s[k..]
  {
    assert s[k..] == [s[k]] + s[k + 1..];
  }

  /** One encoded element followed by `after`, given that it parses back. */
  lemma ParseElementStep(x: JValue, after: string, acc: seq<JValue>)
    requires ParseValue(Encode(x) + after) == Some((x, after))
    requires after != [] && !IsWs(after[0])
    ensures ParseElements(Encode(x) + after, acc) ==
      if after[0] == ']' then Some((JArray(acc + [x]), after[1..]))
      else if after[0] == ',' then ParseElements(SkipWs(after[1..]), acc + [x])
      else None
  {
    assert SkipWs(after) == after;
  }

  lemma ItemsTextCons(v: JValue, k: nat, rest: string)
    requires v.JArray? && k + 1 < |v.items|
    ensures ItemsText(v, k) + "]" + rest == Encode(v.items[k]) + ("," + (ItemsText(v, k + 1) + "]" + rest))
  {
  }

  /** Reading an element that is followed by more elements leaves the rest to the next step. */
  lemma ParseElementsCons(v: JValue, k: nat, acc: seq<JValue>, rest: string)
    requires v.JArray? && k + 1 < |v.items|
    requires ParseValue(Encode(v.items[k]) + ("," + (ItemsText(v, k + 1) + "]" + rest)))
             == Some((v.items[k], "," + (ItemsText(v, k + 1) + "]" + rest)))
    ensures ParseElements(ItemsText(v, k) + "]" + rest, acc) ==
            ParseElements(ItemsText(v, k + 1) + "]" + rest, acc + [v.items[k]])
  {
    var x := v.items[k];
    var after' := ItemsText(v, k + 1) + "]" + rest;
    var after := "," + after';
    ItemsTextCons(v, k, rest);
    ParseElementStep(x, after, acc);
    assert after[1..] == after';
    assert SkipWs(after') == after';
  }

  lemma {:induction false} ParseEncodedElements(v: JValue, k: nat, acc: seq<JValue>, rest: string)
    requires v.JArray? && k < |v.items|
    ensures ParseElements(ItemsText(v, k) + "]" + rest, acc) == Some((JArray(acc + v.items[k..]), rest))
    decreases v, 0, |v.items| - k
  {
    var items := v.items;
    var x := items[k];
    if k + 1 == |items| {
      var after := "]" + rest;
      assert ItemsText(v, k) + "]" + rest == Encode(x) + after;
      ParseEncoded(x, after);
      ParseElementStep(x, after, acc);
      assert after[1..] == rest;
      assert items[k..] == [x];
    } else {
      var after := "," + (ItemsText(v, k + 1) + "]" + rest);
      ParseEncoded(x, after);
      ParseEncodedElements(v, k + 1, acc + [x], rest);
      ParseElementsCons(v, k, acc, rest);
      AppendSlice(acc, items, k);
    }
  }

  /** One step of `ParseMembers`: a key, a colon, a value and the character after it. */
  lemma ParseMembersUnfold(s: string, acc: seq<Member>, key: string, tail: string, v: JValue, after: string)
    requires ParseString(s) == Some((key, tail))
    requires tail != [] && tail[0] == ':' && SkipWs(tail) == tail
    requires ParseValue(SkipWs(tail[1..])) == Some((v, after))
    requires after != [] && !IsWs(after[0])
    ensures ParseMembers(s, acc) ==
      if after[0] == '}' then Some((JObject(acc + [Member(key, v)]), after[1..]))
      else if after[0] == ',' then ParseMembers(SkipWs(after[1..]), acc + [Member(key, v)])
      else None
  {
    assert SkipWs(after) == after;
  }

  /** One encoded member followed by `after`, given that its value parses back. */
  lemma ParseMemberStep(m: Member, after: string, acc: seq<Member>)
    requires ParseValue(Encode(m.value) + after) == Some((m.value, after))
    requires after != [] && !IsWs(after[0])
    ensures ParseMembers(EncodeMember(m) + after, acc) ==
      if after[0] == '}' then Some((JObject(acc + [m]), after[1..]))
      else if after[0] == ',' then ParseMembers(SkipWs(after[1..]), acc + [m])
      else None
  {
    var tail := ":" + (Encode(m.value) + after);
    MemberText(m, after);
    ParseQuoted(m.key, tail);
    AfterColon(Encode(m.value) + after);
    ParseMembersUnfold(EncodeMember(m) + after, acc, m.key, tail, m.value, after);
  }

  lemma MemberText(m: Member, after: string)
    ensures EncodeMember(m) + after == Quote(m.key) + (":" + (Encode(m.value) + after))
  {
  }

  /** No whitespace is skipped around the colon before an encoded value. */
  lemma AfterColon(e: string)
    requires e != [] && StartsValue(e[0])
    ensures var tail := ":" + e; tail != [] && tail[0] == ':' && SkipWs(tail) == tail && SkipWs(tail[1..]) == e
  {
    assert (":" + e)[1..] == e;
  }

  lemma MembersTextCons(v: JValue, k: nat, rest: string)
    requires v.JObject? && k + 1 < |v.members|
    ensures MembersText(v, k) + "}" + rest ==
            EncodeMember(v.members[k]) + ("," + (MembersText(v, k + 1) + "}" + rest))
  {
  }

  /** Reading a member that is followed by more members leaves the rest to the next step. */
  lemma ParseMembersCons(v: JValue, k: nat, acc: seq<Member>, rest: string)
    requires v.JObject? && k + 1 < |v.members|
    requires ParseValue(Encode(v.members[k].value) + ("," + (MembersText(v, k + 1) + "}" + rest)))
             == Some((v.members[k].value, "," + (MembersText(v, k + 1) + "}" + rest)))
    ensures ParseMembers(MembersText(v, k) + "}" + rest, acc) ==
            ParseMembers(MembersText(v, k + 1) + "}" + rest, acc + [v.members[k]])
  {
    var m := v.members[k];
    var after' := MembersText(v, k + 1) + "}" + rest;
    var after := "," + after';
    MembersTextCons(v, k, rest);
    ParseMemberStep(m, after, acc);
    assert after[1..] == after';
    assert SkipWs(after') == after';
  }

  lemma {:induction false} ParseEncodedMembers(v: JValue, k: nat, acc: seq<Member>, rest: string)
    requires v.JObject? && k < |v.members|
    ensures ParseMembers(MembersText(v, k) + "}" + rest, acc) == Some((JObject(acc + v.members[k..]), rest))
    decreases v, 0, |v.members| - k
  {
    var ms := v.members;
    var m := ms[k];
    assert m.value < v;
    if k + 1 == |ms| {
      var after := "}" + rest;
      assert MembersText(v, k) + "}" + rest == EncodeMember(m) + after;
      ParseEncoded(m.value, after);
      ParseMemberStep(m, after, acc);
      assert after[1..] == rest;
      assert ms[k..] == [m];
    } else {
      var after := "," + (MembersText(v, k + 1) + "}" + rest);
      ParseEncoded(m.value, after);
      ParseEncodedMembers(v, k + 1, acc + [m], rest);
      ParseMembersCons(v, k, acc, rest);
      AppendSlice(acc, ms, k);
    }
  }

  /** `JSON.parse(JSON.stringify(v))` gives `v` back. */
  lemma ParseEncode(v: JValue)
    ensures Parse(Encode(v)) == Some(v)
  {
    assert Encode(v) + [] == Encode(v);
    ParseEncoded(v, []);
    assert SkipWs(Encode(v)) == Encode(v);
  }
}
