/** The canonical JSON text of an audit payload: what the printer emits, and a reader that
    inverts it.

    The printer is `json.dumps` with sorted keys, no spaces and non-ASCII characters kept;
    string escapes follow section 7 of RFC 8259. */
module CanonicalJson {
  import opened Texts

  datatype Json =
    | Null
    | Bool(b: bool)
    | Int(n: int)
    | Str(s: string)
    | List(items: Items)
    | Obj(members: Members)

  datatype Items = NoItems | Item(first: Json, rest: Items)

  datatype Members = NoMembers | Member(key: string, value: Json, rest: Members)

  // ---------------------------------------------------------------- printing

  predicate IsControl(c: char) {
    c < ' '
  }

  function Escape(c: char): string {
    if c == '"' then "\\\""
    else if c == '\\' then "\\\\"
    else if c == '\n' then "\\n"
    else if c == '\r' then "\\r"
    else if c == '\t' then "\\t"
    else if c == '\U{0C}' then "\\f"
    else if c == '\U{08}' then "\\b"
    else if IsControl(c) then "\\u00" + HexText(c as int, 2)
    else [c]
  }

  /** A string's characters, escaped, and the closing quote. */
  function QuotedTail(s: string): string {
    if s == "" then "\"" else Escape(s[0]) + QuotedTail(s[1..])
  }

  function Quoted(s: string): string {
    "\"" + QuotedTail(s)
  }

  function Print(j: Json): string {
    match j
    case Null => "null"
    case Bool(b) => if b then "true" else "false"
    case Int(n) => IntText(n)
    case Str(s) => Quoted(s)
    case List(items) => "[" + PrintItems(items)
    case Obj(members) => "{" + PrintMembers(members)
  }

  /** A list's items and its closing bracket. */
  function PrintItems(items: Items): string {
    match items
    case NoItems => "]"
    case Item(first, rest) => Print(first) + if rest.NoItems? then "]" else "," + PrintItems(rest)
  }

  /** An object's members and its closing brace. */
  function PrintMembers(members: Members): string {
    match members
    case NoMembers => "}"
    case Member(key, value, rest) =>
      Quoted(key) + ":" + Print(value) + if rest.NoMembers? then "}" else "," + PrintMembers(rest)
  }

  /** The text is JSON as RFC 8259 has it, without blanks. */
  lemma PrintedForms(a: Json, items: Items)
    ensures Print(Null) == "null" && Print(Bool(true)) == "true" && Print(Bool(false)) == "false"
    ensures Print(List(NoItems)) == "[]" && Print(Obj(NoMembers)) == "{}"
    ensures Print(List(Item(a, NoItems))) == "[" + Print(a) + "]"
    ensures items.Item? ==> Print(List(Item(a, items))) == "[" + Print(a) + "," + Print(List(items))[1..]
  {
    if items.Item? {
      assert Print(List(items))[1..] == PrintItems(items);
      assert "[" + (Print(a) + ("," + PrintItems(items))) == "[" + Print(a) + "," + PrintItems(items);
    }
  }

  lemma PrintedObjects(key: string, value: Json, members: Members)
    ensures Print(Obj(Member(key, value, NoMembers))) == "{" + Print(Str(key)) + ":" + Print(value) + "}"
    ensures members.Member? ==>
      Print(Obj(Member(key, value, members)))
        == "{" + Print(Str(key)) + ":" + Print(value) + "," + Print(Obj(members))[1..]
  {
    var k, v := Quoted(key), Print(value);
    assert "{" + (k + ":" + v + "}") == "{" + k + ":" + v + "}";
    if members.Member? {
      var rest := PrintMembers(members);
      assert Print(Obj(members))[1..] == rest;
      assert "{" + (k + ":" + v + ("," + rest)) == "{" + k + ":" + v + "," + rest;
    }
  }

  /** Section 7 of RFC 8259: quotation mark, reverse solidus and control characters are escaped,
      and nothing else. */
  lemma PrintedStrings(s: string, c: char)
    ensures Print(Str("")) == "\"\""
    ensures Print(Str([c] + s)) == "\"" + Escape(c) + Print(Str(s))[1..]
    ensures Escape('"') == "\\\"" && Escape('\\') == "\\\\"
    ensures Escape('\n') == "\\n" && Escape('\r') == "\\r" && Escape('\t') == "\\t"
    ensures Escape('\U{08}') == "\\b" && Escape('\U{0C}') == "\\f" && Escape('\U{01}') == "\\u0001"
    ensures c >= ' ' && c != '"' && c != '\\' ==> Escape(c) == [c]
  {
    assert ([c] + s)[1..] == s;
    assert HexText(1, 2) == "01";
  }

  // ---------------------------------------------------------------- reading

  datatype Parsed<T> = Fail | Got(value: T, rest: string)

  /** The character a backslash escape stands for; only the escapes the printer emits. */
  function Unescape(s: string): (p: Parsed<char>)
    ensures p.Got? ==> |p.rest| < |s|
  {
    if s == "" then Fail
    else if s[0] == '"' then Got('"', s[1..])
    else if s[0] == '\\' then Got('\\', s[1..])
    else if s[0] == 'n' then Got('\n', s[1..])
    else if s[0] == 'r' then Got('\r', s[1..])
    else if s[0] == 't' then Got('\t', s[1..])
    else if s[0] == 'f' then Got('\U{0C}', s[1..])
    else if s[0] == 'b' then Got('\U{08}', s[1..])
    else if |s| >= 5 && s[..3] == "u00" && IsHexDigit(s[3]) && IsHexDigit(s[4])
      then Got((HexDigitValue(s[3]) * 16 + HexDigitValue(s[4])) as char, s[5..])
    else Fail
  }

  /** A string's characters up to its closing quote. */
  function Unquote(s: string): (p: Parsed<string>)
    ensures p.Got? ==> |p.rest| < |s|
    decreases |s|
  {
    if s == "" then Fail
    else if s[0] == '"' then Got("", s[1..])
    else if s[0] == '\\' then
      var e := Unescape(s[1..]);
      if e.Fail? then Fail
      else
        var tail := Unquote(e.rest);
        if tail.Fail? then Fail else Got([e.value] + tail.value, tail.rest)
    else
      var tail := Unquote(s[1..]);
      if tail.Fail? then Fail else Got([s[0]] + tail.value, tail.rest)
  }

  function ParseNat(s: string): (p: Parsed<nat>)
    ensures p.Got? ==> |p.rest| < |s|
  {
    var k := DigitSpan(s);
    if k == 0 then Fail else Got(NatOf(s[..k]), s[k..])
  }

  /** A member's key and the colon after it. */
  function ParseKey(s: string): (p: Parsed<string>)
    ensures p.Got? ==> |p.rest| < |s|
  {
    if s == "" || s[0] != '"' then Fail
    else
      var key := Unquote(s[1..]);
      if key.Fail? || key.rest == "" || key.rest[0] != ':' then Fail else Got(key.value, key.rest[1..])
  }

  function Parse(s: string): (p: Parsed<Json>)
    ensures p.Got? ==> |p.rest| < |s|
    decreases |s|, 0
  {
    if s == "" then Fail
    else if s[0] == 'n' then if "null" <= s then Got(Null, s[4..]) else Fail
    else if s[0] == 't' then if "true" <= s then Got(Bool(true), s[4..]) else Fail
    else if s[0] == 'f' then if "false" <= s then Got(Bool(false), s[5..]) else Fail
    else if s[0] == '"' then
      var text := Unquote(s[1..]);
      if text.Fail? then Fail else Got(Str(text.value), text.rest)
    else if s[0] == '[' then
      if |s| > 1 && s[1] == ']' then Got(List(NoItems), s[2..])
      else
        var items := ParseItems(s[1..]);
        if items.Fail? then Fail else Got(List(items.value), items.rest)
    else if s[0] == '{' then
      if |s| > 1 && s[1] == '}' then Got(Obj(NoMembers), s[2..])
      else
        var members := ParseMembers(s[1..]);
        if members.Fail? then Fail else Got(Obj(members.value), members.rest)
    else if s[0] == '-' then
      var m := ParseNat(s[1..]);
      if m.Fail? then Fail else Got(Int(0 - m.value), m.rest)
    else
      var m := ParseNat(s);
      if m.Fail? then Fail else Got(Int(m.value), m.rest)
  }

  function ParseItems(s: string): (p: Parsed<Items>)
    ensures p.Got? ==> |p.rest| < |s|
    decreases |s|, 1
  {
    var first := Parse(s);
    if first.Fail? || first.rest == "" then Fail
    else if first.rest[0] == ']' then Got(Item(first.value, NoItems), first.rest[1..])
    else if first.rest[0] == ',' then
      var rest := ParseItems(first.rest[1..]);
      if rest.Fail? then Fail else Got(Item(first.value, rest.value), rest.rest)
    else Fail
  }

  function ParseMembers(s: string): (p: Parsed<Members>)
    ensures p.Got? ==> |p.rest| < |s|
    decreases |s|, 1
  {
    var key := ParseKey(s);
    if key.Fail? then Fail
    else
      var value := Parse(key.rest);
      if value.Fail? || value.rest == "" then Fail
      else if value.rest[0] == '}' then Got(Member(key.value, value.value, NoMembers), value.rest[1..])
      else if value.rest[0] == ',' then
        var rest := ParseMembers(value.rest[1..]);
        if rest.Fail? then Fail else Got(Member(key.value, value.value, rest.value), rest.rest)
      else Fail
  }

  // ---------------------------------------------------------------- round trip

  lemma EscapeReads(c: char, rest: string)
    ensures Escape(c)[0] == '\\' ==> Unescape(Escape(c)[1..] + rest) == Got(c, rest)
    ensures Escape(c)[0] != '\\' ==> Escape(c) == [c] && c != '"'
  {
    var e := Escape(c);
    if e[0] == '\\' {
      var s := e[1..] + rest;
      if |e| == 2 {
        assert s[0] == e[1] && s[1..] == rest;
      } else {
        var h := HexText(c as int, 2);
        assert s[..3] == "u00" && s[3] == h[0] && s[4] == h[1] && s[5..] == rest;
        assert Pow16(2) == 256;
        HexTextReads(c as int, 2);
        assert h[..1] == [h[0]] && HexOf(h[..1]) == HexDigitValue(h[0]);
      }
    }
  }

  lemma UnquoteStep(c: char, tail: string)
    requires Unquote(tail).Got?
    ensures Unquote(Escape(c) + tail) == Got([c] + Unquote(tail).value, Unquote(tail).rest)
  {
    EscapeReads(c, tail);
    var e := Escape(c);
    assert (e + tail)[1..] == e[1..] + tail;
    assert e[0] != '\\' ==> (e + tail)[1..] == tail;
  }

  lemma {:induction false} UnquoteReads(s: string, rest: string)
    ensures Unquote(QuotedTail(s) + rest) == Got(s, rest)
  {
    if s == "" {
      assert ("\"" + rest)[1..] == rest;
    } else {
      var tail := QuotedTail(s[1..]) + rest;
      assert QuotedTail(s) + rest == Escape(s[0]) + tail;
      UnquoteReads(s[1..], rest);
      UnquoteStep(s[0], tail);
      assert s == [s[0]] + s[1..];
    }
  }

  lemma KeyReads(key: string, rest: string)
    ensures ParseKey(Quoted(key) + ":" + rest) == Got(key, rest)
  {
    var s := Quoted(key) + ":" + rest;
    assert s[1..] == QuotedTail(key) + (":" + rest);
    UnquoteReads(key, ":" + rest);
    assert (":" + rest)[1..] == rest;
  }

  lemma NatReads(n: nat, rest: string)
    requires Delimited(rest)
    ensures ParseNat(NatText(n) + rest) == Got(n, rest)
  {
    DigitSpanOf(NatText(n), rest);
    NatTextReads(n);
    var s := NatText(n) + rest;
    assert s[..|NatText(n)|] == NatText(n) && s[|NatText(n)|..] == rest;
  }

  lemma NatStep(s: string, n: nat, rest: string)
    requires ParseNat(s) == Got(n, rest) && s != "" && IsDigit(s[0])
    ensures Parse(s) == Got(Int(n), rest)
  {
  }

  lemma NegativeStep(s: string, n: nat, rest: string)
    requires ParseNat(s) == Got(n, rest)
    ensures Parse("-" + s) == Got(Int(0 - n), rest)
  {
    var whole := "-" + s;
    assert whole[0] == '-' && whole[1..] == s;
  }

  lemma IntReads(n: int, rest: string)
    requires Delimited(rest)
    ensures Parse(IntText(n) + rest) == Got(Int(n), rest)
  {
    var m := if n < 0 then -n else n;
    NatReads(m, rest);
    if n < 0 {
      NegativeStep(NatText(m) + rest, m, rest);
      assert "-" + NatText(m) + rest == "-" + (NatText(m) + rest);
    } else {
      NatStep(NatText(m) + rest, m, rest);
    }
  }

  lemma PrintStarts(j: Json)
    ensures Print(j) != "" && Print(j)[0] != ']'
  {
  }

  lemma LiteralReads(j: Json, rest: string)
    requires j.Null? || j.Bool?
    ensures Parse(Print(j) + rest) == Got(j, rest)
  {
    assert (Print(j) + rest)[|Print(j)|..] == rest;
  }

  lemma StrReads(text: string, rest: string)
    ensures Parse(Quoted(text) + rest) == Got(Str(text), rest)
  {
    UnquoteReads(text, rest);
    var s := Quoted(text) + rest;
    assert s[0] == '"' && s[1..] == QuotedTail(text) + rest;
  }

  lemma ListStep(s: string, items: Items, rest: string)
    requires s != "" && s[0] != ']' && ParseItems(s) == Got(items, rest)
    ensures Parse("[" + s) == Got(List(items), rest)
  {
    var whole := "[" + s;
    assert whole[1..] == s && whole[1] == s[0];
  }

  lemma ObjStep(s: string, members: Members, rest: string)
    requires s != "" && s[0] != '}' && ParseMembers(s) == Got(members, rest)
    ensures Parse("{" + s) == Got(Obj(members), rest)
  {
    var whole := "{" + s;
    assert whole[1..] == s && whole[1] == s[0];
  }

  lemma EmptyReads(rest: string)
    ensures Parse("[]" + rest) == Got(List(NoItems), rest)
    ensures Parse("{}" + rest) == Got(Obj(NoMembers), rest)
  {
    assert ("[]" + rest)[2..] == rest && ("{}" + rest)[2..] == rest;
  }

  /** Reading inverts printing, whatever text follows the value. */
  lemma {:induction false} ParsePrint(j: Json, rest: string)
    requires Delimited(rest)
    ensures Parse(Print(j) + rest) == Got(j, rest)
    decreases j, 1
  {
    match j {
      case Null => LiteralReads(j, rest);
      case Bool(b) => LiteralReads(j, rest);
      case Int(n) => IntReads(n, rest);
      case Str(text) => StrReads(text, rest);
      case List(items) => ListReads(items, rest);
      case Obj(members) => ObjReads(members, rest);
    }
  }

  lemma {:induction false} ListReads(items: Items, rest: string)
    ensures Parse("[" + PrintItems(items) + rest) == Got(List(items), rest)
    decreases items, 2
  {
    if items.NoItems? {
      EmptyReads(rest);
    } else {
      ItemsRead(items, rest);
      PrintStarts(items.first);
      var s := PrintItems(items) + rest;
      ListStep(s, items, rest);
      assert "[" + PrintItems(items) + rest == "[" + s;
    }
  }

  lemma {:induction false} ObjReads(members: Members, rest: string)
    ensures Parse("{" + PrintMembers(members) + rest) == Got(Obj(members), rest)
    decreases members, 2
  {
    if members.NoMembers? {
      EmptyReads(rest);
    } else {
      MembersRead(members, rest);
      var s := PrintMembers(members) + rest;
      ObjStep(s, members, rest);
      assert "{" + PrintMembers(members) + rest == "{" + s;
    }
  }

  /** What follows an item: the closing bracket, or a comma and more items. */
  lemma ItemsStep(s: string, first: Json, tail: string, items: Items, rest: string)
    requires Parse(s) == Got(first, tail)
    requires (items.NoItems? && tail == "]" + rest)
      || (exists more :: tail == "," + more && ParseItems(more) == Got(items, rest))
    ensures ParseItems(s) == Got(Item(first, items), rest)
  {
    if items.NoItems? && tail == "]" + rest {
      assert tail[1..] == rest;
    } else {
      var more :| tail == "," + more && ParseItems(more) == Got(items, rest);
      assert tail[1..] == more;
    }
  }

  lemma MembersStep(s: string, key: string, after: string, value: Json, tail: string, members: Members, rest: string)
    requires ParseKey(s) == Got(key, after) && Parse(after) == Got(value, tail)
    requires (members.NoMembers? && tail == "}" + rest)
      || (exists more :: tail == "," + more && ParseMembers(more) == Got(members, rest))
    ensures ParseMembers(s) == Got(Member(key, value, members), rest)
  {
    if members.NoMembers? && tail == "}" + rest {
      assert tail[1..] == rest;
    } else {
      var more :| tail == "," + more && ParseMembers(more) == Got(members, rest);
      assert tail[1..] == more;
    }
  }

  lemma {:induction false} ItemsRead(items: Items, rest: string)
    requires items.Item?
    ensures ParseItems(PrintItems(items) + rest) == Got(items, rest)
    decreases items, 0
  {
    var more := PrintItems(items.rest) + rest;
    var tail := if items.rest.NoItems? then "]" + rest else "," + more;
    assert PrintItems(items) + rest == Print(items.first) + tail;
    ParsePrint(items.first, tail);
    if items.rest.Item? {
      ItemsRead(items.rest, rest);
    }
    ItemsStep(PrintItems(items) + rest, items.first, tail, items.rest, rest);
  }

  lemma {:induction false} MembersRead(members: Members, rest: string)
    requires members.Member?
    ensures ParseMembers(PrintMembers(members) + rest) == Got(members, rest)
    decreases members, 0
  {
    var more := PrintMembers(members.rest) + rest;
    var tail := if members.rest.NoMembers? then "}" + rest else "," + more;
    var after := Print(members.value) + tail;
    assert PrintMembers(members) + rest == Quoted(members.key) + ":" + after;
    KeyReads(members.key, after);
    ParsePrint(members.value, tail);
    if members.rest.Member? {
      MembersRead(members.rest, rest);
    }
    MembersStep(PrintMembers(members) + rest, members.key, after, members.value, tail, members.rest, rest);
  }

  /** Equal texts come from equal trees. */
  lemma PrintIsInjective(a: Json, b: Json)
    requires Print(a) == Print(b)
    ensures a == b
  {
    assert Print(a) + "" == Print(a) && Print(b) + "" == Print(b);
    ParsePrint(a, "");
    ParsePrint(b, "");
  }
}
