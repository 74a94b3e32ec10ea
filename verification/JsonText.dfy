/**
  JSON texts (RFC 8259 sections 2 to 7): a reader from characters to documents
  that keep member order and repeated keys, and the compact writer that Go's
  `json.Marshal` uses. Reading back what the writer wrote gives the document.
 */
module JsonText {
  import opened Wrappers

  /** A document as written: members in order, repeated keys kept, numbers as their text. */
  datatype Doc =
    | DNull
    | DBool(b: bool)
    | DNum(text: string)
    | DStr(s: string)
    | DArr(items: seq<Doc>)
    | DObj(members: seq<Member>)

  datatype Member = Member(key: string, value: Doc)

  // Characters

  predicate IsSpace(c: char) {
    c == ' ' || c == '\t' || c == '\n' || c == '\r'
  }

  function SkipSpace(s: string): (r: string)
    ensures |r| <= |s|
    ensures r == "" || !IsSpace(r[0])
    ensures s != "" && !IsSpace(s[0]) ==> r == s
  {
    if s != "" && IsSpace(s[0]) then SkipSpace(s[1..]) else s
  }

  predicate Starts(s: string, p: string) {
    |p| <= |s| && s[..|p|] == p
  }

  // Strings

  function HexValue(c: char): (r: Option<nat>)
    ensures r.Some? ==> r.value < 16
  {
    if '0' <= c <= '9' then Some(c as int - 48)
    else if 'a' <= c <= 'f' then Some(c as int - 87)
    else if 'A' <= c <= 'F' then Some(c as int - 55)
    else None
  }

  /** Four hexadecimal digits: one UTF-16 code unit. */
  function CodeUnit(s: string): (r: Option<nat>)
    ensures r.Some? ==> |s| >= 4 && r.value < 0x10000
  {
    if |s| < 4 then None
    else
      match (HexValue(s[0]), HexValue(s[1]), HexValue(s[2]), HexValue(s[3]))
      case (Some(a), Some(b), Some(c), Some(d)) =>
        Some(a * 4096 + b * 256 + c * 16 + d)
      case _ => None
  }

  function LowSurrogate(s: string): (r: Option<nat>)
    ensures r.Some? ==> |s| >= 6 && 0xDC00 <= r.value < 0xE000
  {
    if |s| >= 6 && s[0] == '\\' && s[1] == 'u' then
      var unit :- CodeUnit(s[2..]);
      if 0xDC00 <= unit < 0xE000 then Some(unit) else None
    else None
  }

  function ShortEscape(c: char): Option<char> {
    match c
    case '\"' => Some('\"')
    case '\\' => Some('\\')
    case '/' => Some('/')
    case 'b' => Some(8 as char)
    case 'f' => Some(12 as char)
    case 'n' => Some('\n')
    case 'r' => Some('\r')
    case 't' => Some('\t')
    case _ => None
  }

  /** The first character of a string body, decoded, and the text after it. */
  function ReadChar(s: string): (r: Option<(char, string)>)
    ensures r.Some? ==> |r.value.1| < |s|
  {
    if s == "" || s[0] < ' ' || s[0] == '\"' then None
    else if s[0] != '\\' then Some((s[0], s[1..]))
    else if |s| < 2 then None
    else if s[1] == 'u' then
      var unit :- CodeUnit(s[2..]);
      if unit < 0xD800 || 0xE000 <= unit then Some((unit as char, s[6..]))
      else
        // A high surrogate pairs with a following low one; an unpaired one
        // reads as the replacement character.
        var low := LowSurrogate(s[6..]);
        if unit < 0xDC00 && low.Some? then
          Some(((0x10000 + (unit - 0xD800) * 0x400 + (low.value - 0xDC00)) as char, s[12..]))
        else Some((0xFFFD as char, s[6..]))
    else
      var c :- ShortEscape(s[1]);
      Some((c, s[2..]))
  }

  /** Reads a string body up to and including the closing quote. */
  function ReadString(s: string): (r: Option<(string, string)>)
    ensures r.Some? ==> |r.value.1| < |s|
  {
    if s != "" && s[0] == '\"' then Some(("", s[1..]))
    else
      var (c, rest) :- ReadChar(s);
      var (tail, after) :- ReadString(rest);
      Some(([c] + tail, after))
  }

  // Numbers

  predicate NumberChar(c: char) {
    '0' <= c <= '9' || c == '-' || c == '+' || c == '.' || c == 'e' || c == 'E'
  }

  /** Where a scan of `-? int frac? exp?` stands. */
  datatype NumberState = Begin | Minus | Zero | Integer | Point | Fraction | Exp | ExpSign | ExpDigits

  function NumberStep(state: NumberState, c: char): (next: Option<NumberState>)
    ensures next.Some? ==> NumberChar(c)
  {
    var digit := '0' <= c <= '9';
    match state
    case Begin =>
      if c == '-' then Some(Minus) else if c == '0' then Some(Zero) else if digit then Some(Integer) else None
    case Minus => if c == '0' then Some(Zero) else if digit then Some(Integer) else None
    case Zero => if c == '.' then Some(Point) else if c == 'e' || c == 'E' then Some(Exp) else None
    case Integer =>
      if digit then Some(Integer) else if c == '.' then Some(Point)
      else if c == 'e' || c == 'E' then Some(Exp) else None
    case Point => if digit then Some(Fraction) else None
    case Fraction => if digit then Some(Fraction) else if c == 'e' || c == 'E' then Some(Exp) else None
    case Exp => if c == '+' || c == '-' then Some(ExpSign) else if digit then Some(ExpDigits) else None
    case ExpSign => if digit then Some(ExpDigits) else None
    case ExpDigits => if digit then Some(ExpDigits) else None
  }

  predicate NumberFrom(state: NumberState, text: string)
    decreases text
  {
    if text == "" then state.Zero? || state.Integer? || state.Fraction? || state.ExpDigits?
    else
      var next := NumberStep(state, text[0]);
      next.Some? && NumberFrom(next.value, text[1..])
  }

  predicate ValidNumber(text: string) {
    NumberFrom(Begin, text)
  }

  /** The longest prefix of characters that can occur in a number. */
  function NumberSpan(s: string): (n: nat)
    ensures n <= |s|
  {
    if s != "" && NumberChar(s[0]) then 1 + NumberSpan(s[1..]) else 0
  }

  // Values

  function ReadValue(s: string): (r: Option<(Doc, string)>)
    ensures r.Some? ==> |r.value.1| < |s|
    decreases |s|, 0
  {
    var t := SkipSpace(s);
    if t == "" then None
    else if t[0] == '{' then
      var u := SkipSpace(t[1..]);
      if u != "" && u[0] == '}' then Some((DObj([]), u[1..]))
      else
        var (members, rest) :- ReadMembers(u);
        Some((DObj(members), rest))
    else if t[0] == '[' then
      var u := SkipSpace(t[1..]);
      if u != "" && u[0] == ']' then Some((DArr([]), u[1..]))
      else
        var (items, rest) :- ReadItems(u);
        Some((DArr(items), rest))
    else if t[0] == '\"' then
      var (text, rest) :- ReadString(t[1..]);
      Some((DStr(text), rest))
    else if Starts(t, "null") then Some((DNull, t[4..]))
    else if Starts(t, "true") then Some((DBool(true), t[4..]))
    else if Starts(t, "false") then Some((DBool(false), t[5..]))
    else
      var n := NumberSpan(t);
      if n > 0 && ValidNumber(t[..n]) then Some((DNum(t[..n]), t[n..])) else None
  }

  /** One or more members, through the closing brace. */
  function ReadMembers(s: string): (r: Option<(seq<Member>, string)>)
    ensures r.Some? ==> |r.value.1| < |s| && |r.value.0| > 0
    decreases |s|, 1
  {
    var t := SkipSpace(s);
    if t == "" || t[0] != '\"' then None
    else
      var (key, u) :- ReadString(t[1..]);
      var colon := SkipSpace(u);
      if colon == "" || colon[0] != ':' then None
      else
        var (value, v) :- ReadValue(colon[1..]);
        var after := SkipSpace(v);
        if after != "" && after[0] == '}' then Some(([Member(key, value)], after[1..]))
        else if after != "" && after[0] == ',' then
          var (members, rest) :- ReadMembers(after[1..]);
          Some(([Member(key, value)] + members, rest))
        else None
  }

  /** One or more array elements, through the closing bracket. */
  function ReadItems(s: string): (r: Option<(seq<Doc>, string)>)
    ensures r.Some? ==> |r.value.1| < |s| && |r.value.0| > 0
    decreases |s|, 1
  {
    var (value, v) :- ReadValue(s);
    var after := SkipSpace(v);
    if after != "" && after[0] == ']' then Some(([value], after[1..]))
    else if after != "" && after[0] == ',' then
      var (items, rest) :- ReadItems(after[1..]);
      Some(([value] + items, rest))
    else None
  }

  /** A whole JSON text: one value and nothing but space after it. */
  function ReadText(s: string): Option<Doc> {
    var (doc, rest) :- ReadValue(s);
    if SkipSpace(rest) == "" then Some(doc) else None
  }

  // Writing

  function HexDigit(d: nat): (c: char)
    requires d < 16
  {
    if d < 10 then (48 + d) as char else (87 + d) as char
  }

  /** One character of a string as `json.Marshal` escapes it, HTML-sensitive characters included. */
  function WriteChar(c: char): (s: string)
    ensures |s| > 0
  {
    match c
    case '\"' => "\\\""
    case '\\' => "\\\\"
    case '\n' => "\\n"
    case '\r' => "\\r"
    case '\t' => "\\t"
    case _ =>
      if c as int == 8 then "\\b"
      else if c as int == 12 then "\\f"
      else if c < ' ' || c == '<' || c == '>' || c == '&' then
        "\\u00" + [HexDigit(c as int / 16), HexDigit(c as int % 16)]
      else if c as int == 0x2028 || c as int == 0x2029 then
        "\\u202" + [HexDigit(c as int % 16)]
      else [c]
  }

  // Each writer below puts its text in front of `rest`, as an encoder that fills
  // a buffer back to front would.

  /** A string body, its closing quote, and `rest`. */
  function WriteBody(s: string, rest: string): string {
    if s == "" then ['\"'] + rest else WriteChar(s[0]) + WriteBody(s[1..], rest)
  }

  function WriteValue(doc: Doc, rest: string): string
    decreases doc, 0
  {
    match doc
    case DNull => "null" + rest
    case DBool(b) => (if b then "true" else "false") + rest
    case DNum(text) => text + rest
    case DStr(s) => ['\"'] + WriteBody(s, rest)
    case DArr(items) => ['['] + if items == [] then [']'] + rest else WriteItems(items, rest)
    case DObj(members) => ['{'] + if members == [] then ['}'] + rest else WriteMembers(members, rest)
  }

  function WriteItems(items: seq<Doc>, rest: string): string
    requires items != []
    decreases items, 1
  {
    WriteValue(items[0], if |items| == 1 then [']'] + rest else [','] + WriteItems(items[1..], rest))
  }

  function WriteMembers(members: seq<Member>, rest: string): string
    requires members != []
    decreases members, 1
  {
    ['\"'] + WriteBody(members[0].key, [':'] + WriteValue(members[0].value, AfterMember(members[1..], rest)))
  }

  /** What follows a member when `more` members are still to be written. */
  function AfterMember(more: seq<Member>, rest: string): (s: string)
    ensures s != "" && !NumberChar(s[0]) && !IsSpace(s[0])
    decreases more, 2
  {
    if more == [] then ['}'] + rest else [','] + WriteMembers(more, rest)
  }

  /** The compact text of a document. */
  function Write(doc: Doc): string {
    WriteValue(doc, "")
  }

  /** Every number literal in the document is a number of the grammar. */
  predicate NumbersValid(doc: Doc) {
    match doc
    case DNum(text) => ValidNumber(text)
    case DArr(items) => forall i | 0 <= i < |items| :: NumbersValid(items[i])
    case DObj(members) => forall i | 0 <= i < |members| :: NumbersValid(members[i].value)
    case _ => true
  }

  // Reading back what was written

  lemma HexDigitRead(d: nat)
    requires d < 16
    ensures HexValue(HexDigit(d)) == Some(d)
  {
  }

  lemma ReadCharWritten(c: char, rest: string)
    ensures ReadChar(WriteChar(c) + rest) == Some((c, rest))
    ensures WriteChar(c)[0] != '\"'
  {
    var w := WriteChar(c);
    assert (w + rest)[|w|..] == rest;
    if |w| == 6 {
      var s := w + rest;
      assert s[0] == '\\' && s[1] == 'u';
      var u := s[2..];
      assert u[0] == w[2] && u[1] == w[3] && u[2] == w[4] && u[3] == w[5];
      if c as int == 0x2028 || c as int == 0x2029 {
        HexDigitRead(c as int % 16);
        assert CodeUnit(u) == Some(0x2020 + c as int % 16);
      } else {
        HexDigitRead(c as int / 16);
        HexDigitRead(c as int % 16);
        assert CodeUnit(u) == Some(c as int);
      }
    }
  }

  lemma {:induction false} ReadStringWritten(s: string, rest: string)
    ensures ReadString(WriteBody(s, rest)) == Some((s, rest))
  {
    if s != "" {
      ReadCharWritten(s[0], WriteBody(s[1..], rest));
      ReadStringWritten(s[1..], rest);
      assert s == [s[0]] + s[1..];
    }
  }

  lemma {:induction false} NumberCharsFrom(state: NumberState, text: string)
    requires NumberFrom(state, text)
    ensures forall i | 0 <= i < |text| :: NumberChar(text[i])
    decreases text
  {
    if text != "" {
      NumberCharsFrom(NumberStep(state, text[0]).value, text[1..]);
      assert text == [text[0]] + text[1..];
    }
  }

  lemma {:induction false} SpanOfNumber(text: string, rest: string)
    requires forall i | 0 <= i < |text| :: NumberChar(text[i])
    requires rest == "" || !NumberChar(rest[0])
    ensures NumberSpan(text + rest) == |text|
  {
    if text == "" {
      assert text + rest == rest;
    } else {
      assert (text + rest)[1..] == text[1..] + rest;
      SpanOfNumber(text[1..], rest);
    }
  }

  lemma ReadNumberWritten(text: string, rest: string)
    requires ValidNumber(text)
    requires rest == "" || !NumberChar(rest[0])
    ensures ReadValue(text + rest) == Some((DNum(text), rest))
  {
    NumberCharsFrom(Begin, text);
    SpanOfNumber(text, rest);
    var s := text + rest;
    assert s[0] == text[0];
    assert s[..|text|] == text && s[|text|..] == rest;
    NotAKeyword(s);
  }

  lemma NotAKeyword(s: string)
    requires s != "" && s[0] != 'n' && s[0] != 't' && s[0] != 'f'
    ensures !Starts(s, "null") && !Starts(s, "true") && !Starts(s, "false")
  {
    if |s| >= 4 {
      assert s[..4][0] == s[0];
    }
    if |s| >= 5 {
      assert s[..5][0] == s[0];
    }
  }

  lemma ReadKeyword(rest: string)
    ensures ReadValue("null" + rest) == Some((DNull, rest))
    ensures ReadValue("true" + rest) == Some((DBool(true), rest))
    ensures ReadValue("false" + rest) == Some((DBool(false), rest))
  {
    var n, t, f := "null" + rest, "true" + rest, "false" + rest;
    assert n[..4] == "null" && n[4..] == rest;
    assert t[..4] == "true" && t[4..] == rest;
    assert f[..5] == "false" && f[5..] == rest && f[..4] == "fals";
    assert t[..4][0] == 't' && f[..4][0] == 'f';
  }

  /** The written form starts where a reader expects a value to start. */
  lemma WriteStarts(doc: Doc, rest: string)
    requires NumbersValid(doc)
    ensures var s := WriteValue(doc, rest);
            s != "" && !IsSpace(s[0]) && s[0] != ']'
  {
    if doc.DNum? {
      NumberCharsFrom(Begin, doc.text);
    }
  }

  /** Reading a written document, with whatever follows it left over. */
  lemma {:induction false} ReadWritten(doc: Doc, rest: string)
    requires NumbersValid(doc)
    requires rest == "" || !NumberChar(rest[0])
    ensures ReadValue(WriteValue(doc, rest)) == Some((doc, rest))
    decreases doc, 0
  {
    match doc
    case DNull => ReadKeyword(rest);
    case DBool(_) => ReadKeyword(rest);
    case DNum(text) => ReadNumberWritten(text, rest);
    case DStr(text) => ReadStringWritten(text, rest);
    case DArr(items) =>
      if items != [] {
        ReadItemsWritten(items, rest);
        WriteStarts(items[0], if |items| == 1 then [']'] + rest else [','] + WriteItems(items[1..], rest));
      }
    case DObj(members) =>
      if members != [] {
        ReadMembersWritten(members, rest);
      }
  }

  lemma {:induction false} ReadItemsWritten(items: seq<Doc>, rest: string)
    requires items != [] && forall i | 0 <= i < |items| :: NumbersValid(items[i])
    ensures ReadItems(WriteItems(items, rest)) == Some((items, rest))
    decreases items, 1
  {
    if |items| == 1 {
      ReadWritten(items[0], [']'] + rest);
      assert items == [items[0]];
    } else {
      var tail := WriteItems(items[1..], rest);
      ReadWritten(items[0], [','] + tail);
      ReadItemsWritten(items[1..], rest);
      assert items == [items[0]] + items[1..];
    }
  }

  lemma {:induction false} ReadMembersWritten(members: seq<Member>, rest: string)
    requires members != [] && forall i | 0 <= i < |members| :: NumbersValid(members[i].value)
    ensures ReadMembers(WriteMembers(members, rest)) == Some((members, rest))
    decreases members, 1
  {
    var Member(key, value) := members[0];
    var more := members[1..];
    var after := AfterMember(more, rest);
    var colon := [':'] + WriteValue(value, after);
    ReadStringWritten(key, colon);
    ReadWritten(value, after);
    if more != [] {
      ReadMembersWritten(more, rest);
      assert after[1..] == WriteMembers(more, rest);
    } else {
      assert after[1..] == rest;
    }
    ReadMember(WriteBody(key, colon), key, colon, value, after, more, rest);
    assert members == [Member(key, value)] + more;
  }

  /** One member and what reading on from it yields. */
  lemma ReadMember(body: string, key: string, colon: string, value: Doc, tail: string, more: seq<Member>, rest: string)
    requires ReadString(body) == Some((key, colon))
    requires colon != "" && colon[0] == ':' && ReadValue(colon[1..]) == Some((value, tail))
    requires tail != ""
    requires more == [] ==> tail[0] == '}' && tail[1..] == rest
    requires more != [] ==> tail[0] == ',' && ReadMembers(tail[1..]) == Some((more, rest))
    ensures ReadMembers(['\"'] + body) == Some(([Member(key, value)] + more, rest))
  {
    var s := ['\"'] + body;
    assert SkipSpace(s) == s && s[1..] == body;
    assert SkipSpace(colon) == colon && SkipSpace(tail) == tail;
    assert [Member(key, value)] + [] == [Member(key, value)];
  }

  /** Every document with valid number literals is recovered from its written form. */
  lemma WriteThenRead(doc: Doc)
    requires NumbersValid(doc)
    ensures ReadText(Write(doc)) == Some(doc)
  {
    ReadWritten(doc, "");
  }

  // A reader only ever produces valid numbers

  lemma {:induction false} ReadNumbersValid(s: string)
    ensures ReadValue(s).Some? ==> NumbersValid(ReadValue(s).value.0)
    decreases |s|, 0
  {
    if ReadValue(s).Some? {
      var t := SkipSpace(s);
      if t[0] == '{' {
        var u := SkipSpace(t[1..]);
        if !(u != "" && u[0] == '}') {
          ReadMembersValid(u);
        }
      } else if t[0] == '[' {
        var u := SkipSpace(t[1..]);
        if !(u != "" && u[0] == ']') {
          ReadItemsValid(u);
        }
      }
    }
  }

  lemma {:induction false} ReadMembersValid(s: string)
    ensures ReadMembers(s).Some? ==>
              forall i | 0 <= i < |ReadMembers(s).value.0| :: NumbersValid(ReadMembers(s).value.0[i].value)
    decreases |s|, 1
  {
    if ReadMembers(s).Some? {
      var t := SkipSpace(s);
      var (key, u) := ReadString(t[1..]).value;
      var colon := SkipSpace(u);
      ReadNumbersValid(colon[1..]);
      var (value, v) := ReadValue(colon[1..]).value;
      var after := SkipSpace(v);
      if after[0] == ',' {
        ReadMembersValid(after[1..]);
      }
    }
  }

  lemma {:induction false} ReadItemsValid(s: string)
    ensures ReadItems(s).Some? ==>
              forall i | 0 <= i < |ReadItems(s).value.0| :: NumbersValid(ReadItems(s).value.0[i])
    decreases |s|, 1
  {
    if ReadItems(s).Some? {
      ReadNumbersValid(s);
      var (value, v) := ReadValue(s).value;
      var after := SkipSpace(v);
      if after[0] == ',' {
        ReadItemsValid(after[1..]);
      }
    }
  }

  lemma ReadTextValid(s: string)
    ensures ReadText(s).Some? ==> NumbersValid(ReadText(s).value)
  {
    ReadNumbersValid(s);
  }
}
