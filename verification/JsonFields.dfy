/**
  The controller's JSON printer and the simulator's field extractors. The
  printer writes a flat object with an indentation of two and escapes
  strings as in section 7 of RFC 8259, in ASCII; the extractors look for the
  quoted key, the next colon, and read from there.
 */
module JsonFields {
  import opened Prelude

  /** A number is the text the printer writes for it. */
  datatype Value = Num(token: string) | Bool(truth: bool) | Null | Str(text: string) | Nums(tokens: seq<string>)

  datatype Field = Field(key: string, value: Value)

  // ----- Printing -----

  predicate NumberChar(c: char) {
    '0' <= c <= '9' || c in "-+.eE"
  }

  predicate IsToken(s: string) {
    s != [] && forall c :: c in s ==> NumberChar(c)
  }

  predicate KeyChar(c: char) {
    'a' <= c <= 'z' || '0' <= c <= '9' || c == '_'
  }

  predicate IsKey(s: string) {
    forall c :: c in s ==> KeyChar(c)
  }

  ghost predicate Printable(fields: seq<Field>) {
    forall f :: f in fields ==> IsKey(f.key) && ValueOk(f.value)
  }

  ghost predicate ValueOk(v: Value) {
    match v
    case Num(t) => IsToken(t)
    case Nums(ts) => forall t :: t in ts ==> IsToken(t)
    case _ => true
  }

  predicate NeedsEscape(c: char) {
    c == '"' || c == '\\' || c < ' ' || c > '~'
  }

  function HexDigit(n: nat): (c: char)
    requires n < 16
    ensures c != '"'
  {
    "0123456789abcdef"[n]
  }

  function Unit(n: nat): (r: string)
    requires n < 0x1_0000
    ensures |r| == 6 && r[0] == '\\' && '"' !in r
  {
    ['\\', 'u', HexDigit(n / 4096), HexDigit(n / 256 % 16), HexDigit(n / 16 % 16), HexDigit(n % 16)]
  }

  /** One character of a string; characters beyond 16 bits become a surrogate pair. */
  function Escape(c: char): (r: string)
    ensures r != []
    ensures if NeedsEscape(c) then r[0] == '\\' else r == [c]
    ensures c != '"' ==> '"' !in r
    ensures c == '"' ==> r == "\\\""
  {
    var n := c as int;
    if !NeedsEscape(c) then [c]
    else if c == '"' then "\\\""
    else if c == '\\' then "\\\\"
    else if c == '\n' then "\\n"
    else if c == '\r' then "\\r"
    else if c == '\t' then "\\t"
    else if n == 12 then "\\f"
    else if n == 8 then "\\b"
    else if n < 0x1_0000 then Unit(n)
    else
      var m := n - 0x1_0000;
      Unit(0xd800 + m / 1024 % 1024) + Unit(0xdc00 + m % 1024)
  }

  function Escaped(s: string): string {
    if s == [] then [] else Escape(s[0]) + Escaped(s[1..])
  }

  function Items(ts: seq<string>): string {
    if ts == [] then "" else "\n    " + ts[0] + (if |ts| == 1 then "" else ",") + Items(ts[1..])
  }

  function ValueText(v: Value): string {
    match v
    case Num(t) => t
    case Bool(b) => if b then "true" else "false"
    case Null => "null"
    case Str(s) => "\"" + Escaped(s) + "\""
    case Nums(ts) => if ts == [] then "[]" else "[" + Items(ts) + "\n  ]"
  }

  function Needle(key: string): string {
    "\"" + key + "\""
  }

  function Quoted(w: string, q: string): string {
    "\"" + (w + ("\"" + q))
  }

  /** What follows the colon of the first field. */
  function Entry(fields: seq<Field>): string
    requires fields != []
    decreases |fields|, 0
  {
    " " + (ValueText(fields[0].value) + Tail(fields[1..]))
  }

  function Body(fields: seq<Field>): string
    requires fields != []
    decreases |fields|, 1
  {
    "\n  " + Quoted(fields[0].key, ":" + Entry(fields))
  }

  /** What follows a value: the end of the object or the next field. */
  function Tail(fields: seq<Field>): string
    decreases |fields|, 2
  {
    if fields == [] then "\n}" else "," + Body(fields)
  }

  function Printed(fields: seq<Field>): string {
    if fields == [] then "{}" else "{" + Body(fields)
  }

  // ----- Extracting -----

  /** What follows the first occurrence of `needle`. */
  function AfterFirst(s: string, needle: string): Option<string> {
    if needle <= s then Some(s[|needle|..])
    else if s == [] then None
    else AfterFirst(s[1..], needle)
  }

  /** What follows the first colon after the quoted key. */
  function Locate(s: string, key: string): Option<string> {
    match AfterFirst(s, Needle(key))
    case None => None
    case Some(r) => AfterFirst(r, ":")
  }

  predicate IsSpace(c: char) {
    c == ' ' || 9 <= c as int <= 13
  }

  function SkipSpace(s: string): string {
    if s != [] && IsSpace(s[0]) then SkipSpace(s[1..]) else s
  }

  function NumberPrefix(s: string): string {
    if s != [] && NumberChar(s[0]) then [s[0]] + NumberPrefix(s[1..]) else []
  }

  function NumberAt(s: string): Option<string> {
    var t := NumberPrefix(SkipSpace(s));
    if t == [] then None else Some(t)
  }

  function BoolAt(s: string): Option<bool> {
    var t := SkipSpace(s);
    if "true" <= t then Some(true) else if "false" <= t then Some(false) else None
  }

  function UpToQuote(s: string): Option<string> {
    if s == [] then None
    else if s[0] == '"' then Some([])
    else match UpToQuote(s[1..]) case None => None case Some(t) => Some([s[0]] + t)
  }

  function StringAt(s: string): Option<string> {
    match AfterFirst(s, "\"")
    case None => None
    case Some(r) => UpToQuote(r)
  }

  function ExtractNumber(s: string, key: string): Option<string> {
    match Locate(s, key) case None => None case Some(r) => NumberAt(r)
  }

  function ExtractBool(s: string, key: string): Option<bool> {
    match Locate(s, key) case None => None case Some(r) => BoolAt(r)
  }

  function ExtractString(s: string, key: string): Option<string> {
    match Locate(s, key) case None => None case Some(r) => StringAt(r)
  }

  // ----- Which field is read -----

  /** The printed string value contains the quoted key. */
  predicate Mimics(v: Value, key: string) {
    v.Str? && (v.text == key || EndsWith(v.text, "\"" + key))
  }

  predicate EndsWith(s: string, t: string) {
    |t| <= |s| && s[|s| - |t|..] == t
  }

  /** The field read for `key`: the first one with that key, or the one right after an earlier value that mimics it. */
  function Target(fields: seq<Field>, key: string): (r: Option<nat>)
    ensures r.Some? ==> r.value < |fields|
  {
    if fields == [] then None
    else if fields[0].key == key then Some(0)
    else if Mimics(fields[0].value, key) then if |fields| > 1 then Some(1) else None
    else match Target(fields[1..], key) case None => None case Some(r) => Some(r + 1)
  }

  // ----- Searching concatenations -----

  /** No occurrence of `needle` in `p + q` starts inside `p`. */
  ghost predicate Quiet(p: string, q: string, needle: string) {
    forall i :: 0 <= i < |p| ==> !(needle <= (p + q)[i..])
  }

  lemma {:induction false} SkipQuiet(p: string, q: string, needle: string)
    requires Quiet(p, q, needle)
    ensures AfterFirst(p + q, needle) == AfterFirst(q, needle)
  {
    if p == [] {
      assert p + q == q;
    } else {
      assert (p + q)[0..] == p + q && (p + q)[1..] == p[1..] + q;
      forall i | 0 <= i < |p| - 1 ensures !(needle <= (p[1..] + q)[i..]) {
        assert (p[1..] + q)[i..] == (p + q)[i + 1..];
      }
      SkipQuiet(p[1..], q, needle);
    }
  }

  lemma NoQuoteIsQuiet(p: string, q: string, needle: string)
    requires needle != [] && needle[0] !in p
    ensures Quiet(p, q, needle)
  {
    forall i | 0 <= i < |p| ensures !(needle <= (p + q)[i..]) {
      assert (p + q)[i..][0] == p[i];
    }
  }

  /** Text without the first character of the needle is skipped. */
  lemma SkipPlain(p: string, q: string, needle: string)
    requires needle != [] && needle[0] !in p
    ensures AfterFirst(p + q, needle) == AfterFirst(q, needle)
  {
    NoQuoteIsQuiet(p, q, needle);
    SkipQuiet(p, q, needle);
  }

  lemma QuotesAlign(w: string, q: string, key: string)
    requires '"' !in w && '"' !in key && Needle(key) <= Quoted(w, q)
    ensures w == key
  {
    var needle, s := Needle(key), Quoted(w, q);
    assert s[|key| + 1] == needle[|key| + 1] == '"' && s[|w| + 1] == '"';
    assert forall i :: 0 <= i < |w| ==> s[i + 1] == w[i];
    assert forall i :: 0 <= i < |key| ==> s[i + 1] == needle[i + 1] == key[i];
    assert |key| >= |w|;
    assert |w| >= |key|;
  }

  lemma QuotedKey(q: string, key: string)
    ensures AfterFirst(Quoted(key, q), Needle(key)) == Some(q)
  {
    assert Quoted(key, q)[|Needle(key)|..] == q;
  }

  /** A quoted text without inner quotes that is not the key is skipped up to its closing quote. */
  lemma QuotedOther(w: string, q: string, key: string)
    requires '"' !in w && '"' !in key && w != key
    ensures AfterFirst(Quoted(w, q), Needle(key)) == AfterFirst("\"" + q, Needle(key))
  {
    var s := Quoted(w, q);
    if Needle(key) <= s {
      QuotesAlign(w, q, key);
    }
    assert AfterFirst(s, Needle(key)) == AfterFirst(s[1..], Needle(key));
    hide AfterFirst;
    assert s[1..] == w + ("\"" + q);
    SkipPlain(w, "\"" + q, Needle(key));
  }

  /** A closing quote before a character no key has. */
  lemma ClosingQuote(q: string, key: string)
    requires IsKey(key) && q != [] && !KeyChar(q[0]) && q[0] != '"'
    ensures AfterFirst("\"" + q, Needle(key)) == AfterFirst(q, Needle(key))
  {
    var needle, s := Needle(key), "\"" + q;
    assert s[1..] == q && s[1] == q[0];
    assert needle[1] != s[1] by {
      assert |key| > 0 ==> needle[1] == key[0];
    }
  }

  // ----- String values -----

  lemma {:induction false} EscapedConcat(a: string, b: string)
    ensures Escaped(a + b) == Escaped(a) + Escaped(b)
  {
    if a == [] {
      assert a + b == b;
    } else {
      assert (a + b)[0] == a[0] && (a + b)[1..] == a[1..] + b;
      EscapedConcat(a[1..], b);
    }
  }

  lemma {:induction false} PlainStaysPlain(s: string)
    requires forall c :: c in s ==> !NeedsEscape(c)
    ensures Escaped(s) == s
  {
    if s != [] {
      PlainStaysPlain(s[1..]);
      assert s[0] in s && Escape(s[0]) == [s[0]];
    }
  }

  lemma {:induction false} EscapedQuotes(s: string)
    requires '"' !in s
    ensures '"' !in Escaped(s)
  {
    if s != [] {
      EscapedQuotes(s[1..]);
      assert s[0] in s;
    }
  }

  /** A text escapes to a key only if it is the key: escapes contain a backslash and keys do not. */
  lemma {:induction false} EscapesToKey(s: string, key: string)
    requires IsKey(key)
    ensures Escaped(s) == key <==> s == key
  {
    if s == [] {
    } else if key == [] {
      assert |Escape(s[0])| > 0;
    } else {
      assert forall c :: c in key[1..] ==> c in key;
      EscapesToKey(s[1..], key[1..]);
      assert key[0] in key && KeyChar(key[0]);
      assert Escaped(s)[0] == Escape(s[0])[0];
      if s[0] == key[0] {
        assert Escape(s[0]) == [s[0]];
        assert Escaped(s) == [s[0]] + Escaped(s[1..]);
        assert key == [key[0]] + key[1..] && s == [s[0]] + s[1..];
      }
    }
  }

  /** Where the first quote of a text is, or its length. */
  function FirstQuote(s: string): (k: nat)
    ensures k <= |s| && '"' !in s[..k] && (k < |s| ==> s[k] == '"')
  {
    if s == [] || s[0] == '"' then 0
    else
      var k := FirstQuote(s[1..]);
      assert s[..k + 1] == [s[0]] + s[1..][..k];
      k + 1
  }

  /** With a quote in the text, whether it mimics the key is decided after that quote. */
  lemma MimicsAfterQuote(s: string, k: nat, key: string)
    requires k < |s| && s[k] == '"' && '"' !in s[..k] && '"' !in key
    ensures Mimics(Str(s), key) <==> Mimics(Str(s[k + 1..]), key)
  {
    var t, quoted := s[k + 1..], "\"" + key;
    assert s != key by {
      assert s[k] in s;
    }
    if EndsWith(s, quoted) {
      var a := |s| - |quoted|;
      assert s[a] == s[a..][0] == '"';
      assert k <= a by {
        assert forall i :: 0 <= i < k ==> s[i] in s[..k];
      }
      if k == a {
        assert t == key by { assert s[a..][1..] == t; }
      } else {
        assert t[|t| - |quoted|..] == s[a..];
      }
    }
    if t == key {
      assert s[k..] == [s[k]] + t == quoted;
      assert |s| - |quoted| == k;
    }
    if EndsWith(t, quoted) {
      assert s[|s| - |quoted|..] == t[|t| - |quoted|..];
    }
  }

  lemma EndHasQuote(v: string, key: string)
    requires EndsWith(v, "\"" + key)
    ensures '"' in v
  {
    assert v[|v| - |key| - 1..][0] == ("\"" + key)[0];
  }

  lemma ValueWithoutQuotes(v: string, q: string, key: string)
    requires IsKey(key) && q != [] && !KeyChar(q[0]) && q[0] != '"' && '"' !in v
    ensures AfterFirst(Quoted(Escaped(v), q), Needle(key))
        == if Mimics(Str(v), key) then Some(q) else AfterFirst(q, Needle(key))
  {
    hide AfterFirst, Escaped;
    EscapedQuotes(v);
    if EndsWith(v, "\"" + key) {
      EndHasQuote(v, key);
    }
    EscapesToKey(v, key);
    if v == key {
      QuotedKey(q, key);
    } else {
      QuotedOther(Escaped(v), q, key);
      ClosingQuote(q, key);
    }
  }

  lemma EscapedAtQuote(v: string, k: nat)
    requires k < |v| && v[k] == '"'
    ensures Escaped(v) == Escaped(v[..k]) + "\\" + "\"" + Escaped(v[k + 1..])
  {
    var b := v[k..];
    assert v == v[..k] + b && b[0] == v[k] && b[1..] == v[k + 1..];
    assert Escaped(b) == Escape('"') + Escaped(v[k + 1..]);
    hide Escaped, Escape;
    EscapedConcat(v[..k], b);
    QuotePair(Escaped(v[..k]), Escaped(v[k + 1..]));
  }

  lemma QuotePair(x: string, y: string)
    ensures x + (Escape('"') + y) == x + "\\" + "\"" + y
  {
  }

  /** Before an escaped quote there is a backslash, which no key ends in. */
  lemma SkipToQuote(v: string, k: nat, q: string, key: string)
    requires IsKey(key) && k < |v| && v[k] == '"' && '"' !in v[..k]
    ensures AfterFirst(Quoted(Escaped(v), q), Needle(key)) == AfterFirst(Quoted(Escaped(v[k + 1..]), q), Needle(key))
  {
    hide AfterFirst, Escaped;
    EscapedQuotes(v[..k]);
    EscapedAtQuote(v, k);
    var u, e := Escaped(v[..k]) + "\\", Escaped(v[k + 1..]);
    assert u != key by {
      assert u[|u| - 1] == '\\' && '\\' in u;
    }
    var r := e + ("\"" + q);
    QuoteShifts(u, e, q);
    QuotedOther(u, r, key);
  }

  lemma QuoteShifts(u: string, e: string, q: string)
    ensures Quoted(u + "\"" + e, q) == Quoted(u, e + ("\"" + q))
  {
  }

  /** A printed string value hides the key unless it mimics it. */
  lemma {:induction false} StringValue(v: string, q: string, key: string)
    requires IsKey(key) && q != [] && !KeyChar(q[0]) && q[0] != '"'
    ensures AfterFirst(Quoted(Escaped(v), q), Needle(key))
        == if Mimics(Str(v), key) then Some(q) else AfterFirst(q, Needle(key))
    decreases |v|
  {
    hide AfterFirst, Escaped, Mimics, Quoted, Needle;
    var k := FirstQuote(v);
    if k == |v| {
      assert v[..k] == v;
      ValueWithoutQuotes(v, q, key);
    } else {
      StringValue(v[k + 1..], q, key);
      MimicsAfterQuote(v, k, key);
      SkipToQuote(v, k, q, key);
    }
  }

  lemma {:induction false} ItemsWithoutQuotes(ts: seq<string>)
    requires forall t :: t in ts ==> IsToken(t)
    ensures '"' !in Items(ts)
  {
    if ts != [] {
      assert IsToken(ts[0]);
      ItemsWithoutQuotes(ts[1..]);
    }
  }

  /** Every other printed value holds no quotes. */
  lemma PlainValue(v: Value)
    requires ValueOk(v) && !v.Str?
    ensures '"' !in ValueText(v)
  {
    match v
    case Num(t) =>
    case Nums(ts) => ItemsWithoutQuotes(ts);
    case _ =>
  }

  lemma TailStarts(fields: seq<Field>)
    ensures Tail(fields) != [] && !KeyChar(Tail(fields)[0]) && Tail(fields)[0] != '"'
  {
  }

  lemma ValueIsSkipped(v: Value, q: string, key: string)
    requires IsKey(key) && ValueOk(v) && q != [] && !KeyChar(q[0]) && q[0] != '"'
    ensures AfterFirst(ValueText(v) + q, Needle(key)) == if Mimics(v, key) then Some(q) else AfterFirst(q, Needle(key))
  {
    hide AfterFirst, Mimics, Escaped;
    if v.Str? {
      StringValue(v.text, q, key);
      assert ValueText(v) + q == Quoted(Escaped(v.text), q);
    } else {
      assert !Mimics(v, key) by {
        NoMimic(v, key);
      }
      PlainValue(v);
      SkipPlain(ValueText(v), q, Needle(key));
    }
  }

  lemma NoMimic(v: Value, key: string)
    requires !v.Str?
    ensures !Mimics(v, key)
  {
  }

  /** The search over one printed field and what follows it. */
  lemma FieldIsSearched(fields: seq<Field>, key: string)
    requires fields != [] && Printable(fields) && IsKey(key)
    ensures AfterFirst(Body(fields), Needle(key))
         == if fields[0].key == key then Some(":" + Entry(fields))
            else if Mimics(fields[0].value, key) then Some(Tail(fields[1..]))
            else AfterFirst(Tail(fields[1..]), Needle(key))
  {
    hide AfterFirst, Tail, Mimics, ValueText, Quoted;
    var f, value := fields[0], ValueText(fields[0].value) + Tail(fields[1..]);
    assert f in fields;
    TailStarts(fields[1..]);
    SkipPlain("\n  ", Quoted(f.key, ":" + Entry(fields)), Needle(key));
    if f.key == key {
      QuotedKey(":" + Entry(fields), key);
    } else {
      QuotedOther(f.key, ":" + Entry(fields), key);
      ClosingQuote(":" + Entry(fields), key);
      SkipPlain(":", Entry(fields), Needle(key));
      SkipPlain(" ", value, Needle(key));
      ValueIsSkipped(f.value, Tail(fields[1..]), key);
    }
  }

  /** The next colon belongs to the next field, if there is one. */
  lemma NextColon(fields: seq<Field>)
    requires Printable(fields)
    ensures AfterFirst(Tail(fields), ":") == if fields == [] then None else Some(Entry(fields))
  {
    if fields != [] {
      assert fields[0] in fields;
      hide AfterFirst, Entry;
      var e := ":" + Entry(fields);
      SkipPlain(",", Body(fields), ":");
      SkipPlain("\n  ", Quoted(fields[0].key, e), ":");
      SkipPlain("\"", fields[0].key + ("\"" + e), ":");
      SkipPlain(fields[0].key, "\"" + e, ":");
      SkipPlain("\"", e, ":");
      ColonFirst(Entry(fields));
    } else {
      EndWithout(":");
    }
  }

  lemma ColonFirst(r: string)
    ensures AfterFirst(":" + r, ":") == Some(r)
  {
  }

  /** The closing brace matches nothing that starts with another character. */
  lemma EndWithout(needle: string)
    requires needle != [] && needle[0] != '\n' && needle[0] != '}'
    ensures AfterFirst("\n}", needle) == None
  {
    SkipPlain("\n}", "", needle);
    assert "\n}" + "" == "\n}";
  }

  // ----- The main results -----

  ghost function EntryAt(fields: seq<Field>, r: Option<nat>): Option<string>
    requires r.Some? ==> r.value < |fields|
  {
    if r.Some? then Some(Entry(fields[r.value..])) else None
  }

  lemma {:induction false} LocateInBody(fields: seq<Field>, key: string)
    requires fields != [] && Printable(fields) && IsKey(key)
    ensures Locate(Body(fields), key) == EntryAt(fields, Target(fields, key))
    decreases |fields|, 0
  {
    hide AfterFirst, Body, Entry, Tail, Mimics, Needle;
    var rest := fields[1..];
    assert forall g :: g in rest ==> g in fields;
    FieldIsSearched(fields, key);
    NextColon(rest);
    if fields[0].key == key {
      ColonFirst(Entry(fields));
      assert fields[0..] == fields;
    } else if !Mimics(fields[0].value, key) {
      LocateInTail(rest, key);
      assert forall r :: 0 <= r < |rest| ==> rest[r..] == fields[r + 1..];
    }
  }

  lemma {:induction false} LocateInTail(fields: seq<Field>, key: string)
    requires Printable(fields) && IsKey(key)
    ensures Locate(Tail(fields), key) == EntryAt(fields, Target(fields, key))
    decreases |fields|, 1
  {
    if fields == [] {
      EndWithout(Needle(key));
    } else {
      LocateInBody(fields, key);
      hide AfterFirst, Body, EntryAt;
      SkipPlain(",", Body(fields), Needle(key));
    }
  }

  /** The extractors always land right after the colon of the target field. */
  lemma LocateIsTarget(fields: seq<Field>, key: string)
    requires Printable(fields) && IsKey(key)
    ensures Locate(Printed(fields), key) == EntryAt(fields, Target(fields, key))
  {
    if fields == [] {
      SkipPlain("{}", "", Needle(key));
      assert "{}" + "" == "{}";
    } else {
      LocateInBody(fields, key);
      hide AfterFirst, Body, EntryAt;
      SkipPlain("{", Body(fields), Needle(key));
    }
  }

  // ----- What is read -----

  lemma {:induction false} TokenIsRead(t: string, q: string)
    requires (forall c :: c in t ==> NumberChar(c)) && q != [] && !NumberChar(q[0])
    ensures NumberPrefix(t + q) == t
  {
    if t == [] {
      assert t + q == q;
    } else {
      assert (t + q)[0] == t[0] && (t + q)[1..] == t[1..] + q && t[0] in t;
      TokenIsRead(t[1..], q);
      assert t == [t[0]] + t[1..];
    }
  }

  lemma TailStops(fields: seq<Field>)
    ensures Tail(fields) != [] && !NumberChar(Tail(fields)[0])
  {
  }

  lemma SpaceIsSkipped(v: Value, q: string)
    requires ValueOk(v)
    ensures SkipSpace(" " + (ValueText(v) + q)) == ValueText(v) + q
  {
    var s := ValueText(v) + q;
    assert ValueText(v) != [] && !IsSpace(ValueText(v)[0]) by {
      if v.Num? {
        assert v.token[0] in v.token;
      }
    }
    assert (" " + s)[1..] == s && s[0] == ValueText(v)[0];
  }

  lemma NumberIsRead(fields: seq<Field>)
    requires fields != [] && ValueOk(fields[0].value)
    ensures NumberAt(Entry(fields)) == match fields[0].value case Num(t) => Some(t) case _ => None
  {
    hide Tail, Items, Escaped;
    var v, q := fields[0].value, Tail(fields[1..]);
    SpaceIsSkipped(v, q);
    TailStops(fields[1..]);
    match v
    case Num(t) => TokenIsRead(t, q);
    case _ =>
      assert !NumberChar(ValueText(v)[0]);
      assert (ValueText(v) + q)[0] == ValueText(v)[0];
  }

  lemma BoolIsRead(fields: seq<Field>)
    requires fields != [] && ValueOk(fields[0].value)
    ensures BoolAt(Entry(fields)) == match fields[0].value case Bool(b) => Some(b) case _ => None
  {
    hide Tail, Items, Escaped;
    var v, q := fields[0].value, Tail(fields[1..]);
    var s := ValueText(v) + q;
    SpaceIsSkipped(v, q);
    assert s[0] == ValueText(v)[0];
    match v
    case Bool(b) => assert ValueText(v) <= s;
    case Num(t) => assert t[0] in t;
    case _ =>
  }

  /** On every printed object the number extractor returns the number of the target field, or fails. */
  lemma ExtractNumberIsTarget(fields: seq<Field>, key: string)
    requires Printable(fields) && IsKey(key)
    ensures ExtractNumber(Printed(fields), key)
         == match Target(fields, key)
            case None => None
            case Some(r) => match fields[r].value case Num(t) => Some(t) case _ => None
  {
    hide Locate, Printed, Entry, NumberAt, Target;
    LocateIsTarget(fields, key);
    var r := Target(fields, key);
    if r.Some? {
      assert fields[r.value..][0] == fields[r.value] && fields[r.value] in fields;
      NumberIsRead(fields[r.value..]);
    }
  }

  lemma ExtractBoolIsTarget(fields: seq<Field>, key: string)
    requires Printable(fields) && IsKey(key)
    ensures ExtractBool(Printed(fields), key)
         == match Target(fields, key)
            case None => None
            case Some(r) => match fields[r].value case Bool(b) => Some(b) case _ => None
  {
    hide Locate, Printed, Entry, BoolAt, Target;
    LocateIsTarget(fields, key);
    var r := Target(fields, key);
    if r.Some? {
      assert fields[r.value..][0] == fields[r.value] && fields[r.value] in fields;
      BoolIsRead(fields[r.value..]);
    }
  }

  /** The index of the field with this key: what the extractors should read. */
  function FieldOf(fields: seq<Field>, key: string): (r: Option<nat>)
    ensures r.Some? ==> r.value < |fields| && fields[r.value].key == key
    ensures r.Some? ==> forall j :: 0 <= j < r.value ==> fields[j].key != key
  {
    if fields == [] then None
    else if fields[0].key == key then Some(0)
    else
      match FieldOf(fields[1..], key)
      case None => None
      case Some(r) =>
        assert forall j :: 1 <= j < r + 1 ==> fields[j] == fields[1..][j - 1];
        Some(r + 1)
  }

  /** An earlier string value, other than the one right before the field, mimics the key. */
  ghost predicate Misled(fields: seq<Field>, key: string, r: nat)
    requires r < |fields|
  {
    exists j :: 0 <= j < r - 1 && Mimics(fields[j].value, key)
  }

  /**
    The field with the key is the one that is read if and only if no string
    value more than one field earlier equals the key or ends in a quote and the key.
   */
  lemma {:induction false} TargetIsFieldIff(fields: seq<Field>, key: string)
    requires FieldOf(fields, key).Some?
    ensures Target(fields, key) == FieldOf(fields, key) <==> !Misled(fields, key, FieldOf(fields, key).value)
  {
    hide Mimics;
    var r := FieldOf(fields, key).value;
    if r > 0 {
      var rest := fields[1..];
      if Mimics(fields[0].value, key) {
        assert Target(fields, key) == Some(1);
        assert r > 1 ==> Misled(fields, key, r);
      } else {
        TargetIsFieldIff(rest, key);
        if j :| 0 <= j < r - 1 && Mimics(fields[j].value, key) {
          assert rest[j - 1] == fields[j];
        }
        if j :| 0 <= j < r - 2 && Mimics(rest[j].value, key) {
          assert fields[j + 1] == rest[j];
        }
      }
    }
  }

  // ----- String extraction -----

  lemma {:induction false} UpToQuoteSplits(t: string, r: string)
    requires '"' !in t
    ensures UpToQuote(t + ("\"" + r)) == Some(t)
  {
    var s := t + ("\"" + r);
    if t != [] {
      assert s[0] == t[0] && t[0] in t && s[1..] == t[1..] + ("\"" + r);
      UpToQuoteSplits(t[1..], r);
      assert t == [t[0]] + t[1..];
    }
  }

  lemma QuotedIsRead(t: string, r: string)
    requires '"' !in t
    ensures StringAt(" " + Quoted(t, r)) == Some(t)
  {
    var body := t + ("\"" + r);
    SkipPlain(" ", Quoted(t, r), "\"");
    assert Quoted(t, r)[1..] == body;
    UpToQuoteSplits(t, r);
  }

  /** The string extractor stops at the first quote, escaped or not. */
  lemma StringIsRead(v: string, q: string)
    ensures StringAt(" " + (ValueText(Str(v)) + q))
         == Some(if '"' in v then Escaped(v[..FirstQuote(v)]) + "\\" else Escaped(v))
  {
    hide Escaped, StringAt;
    var k := FirstQuote(v);
    assert ValueText(Str(v)) + q == Quoted(Escaped(v), q);
    hide ValueText, Quoted;
    EscapedQuotes(v[..k]);
    if k < |v| {
      EscapedAtQuote(v, k);
      var t, e := Escaped(v[..k]) + "\\", Escaped(v[k + 1..]);
      QuoteShifts(t, e, q);
      QuotedIsRead(t, e + ("\"" + q));
    } else {
      assert v[..k] == v;
      QuotedIsRead(Escaped(v), q);
    }
  }

  lemma {:induction false} EscapingLengthens(s: string)
    ensures |s| <= |Escaped(s)|
    ensures Escaped(s) == s <==> forall c :: c in s ==> !NeedsEscape(c)
  {
    if s != [] {
      EscapingLengthens(s[1..]);
      assert s == [s[0]] + s[1..];
      if Escaped(s) == s {
        assert Escaped(s)[0] == Escape(s[0])[0] == s[0];
        assert Escape(s[0]) == [s[0]] by {
          SlashIsDoubled(s[0]);
        }
        assert Escaped(s)[1..] == Escaped(s[1..]);
      } else if forall c :: c in s ==> !NeedsEscape(c) {
        PlainStaysPlain(s);
      }
    }
  }

  lemma SlashIsDoubled(c: char)
    ensures NeedsEscape(c) ==> |Escape(c)| >= 2
  {
  }

  /** A string is read back intact if and only if it needed no escape. */
  lemma StringIntactIff(v: string, q: string)
    ensures StringAt(" " + (ValueText(Str(v)) + q)) == Some(v) <==> forall c :: c in v ==> !NeedsEscape(c)
  {
    hide Escaped, StringAt;
    StringIsRead(v, q);
    EscapingLengthens(v);
    var k := FirstQuote(v);
    if '"' in v {
      assert NeedsEscape('"');
      EscapedQuotes(v[..k]);
      assert '"' !in Escaped(v[..k]) + "\\";
    }
  }

  /** The string extractor returns the target field's text if and only if that text needed no escape. */
  lemma ExtractStringIntactIff(fields: seq<Field>, key: string, r: nat)
    requires Printable(fields) && IsKey(key) && Target(fields, key) == Some(r) && fields[r].value.Str?
    ensures ExtractString(Printed(fields), key) == Some(fields[r].value.text)
      <==> forall c :: c in fields[r].value.text ==> !NeedsEscape(c)
  {
    hide Locate, Printed, StringAt, Target, ValueText;
    LocateIsTarget(fields, key);
    assert fields[r..][0] == fields[r];
    StringIntactIff(fields[r].value.text, Tail(fields[r..][1..]));
  }

  // ----- The controller's response -----

  /** A response: five leading fields, then predictions, residuals and further diagnostics. */
  datatype Response = Response(step: string, time: string, success: bool, status: string, power: string,
      diagnostics: seq<Field>)

  function Payload(r: Response): seq<Field> {
    [Field("step", Num(r.step)), Field("time_s", Num(r.time)), Field("success", Bool(r.success)),
     Field("solver_status", Str(r.status)), Field("tx_power_dbm", Num(r.power))] + r.diagnostics
  }

  lemma {:induction false} FieldAt(fields: seq<Field>, key: string, r: nat)
    requires r < |fields| && fields[r].key == key && forall j :: 0 <= j < r ==> fields[j].key != key
    ensures FieldOf(fields, key) == Some(r)
  {
    if r > 0 {
      assert fields[0].key != key;
      FieldAt(fields[1..], key, r - 1);
    }
  }

  /** Verdict and power are read back from every response, whatever its solver status says. */
  lemma CommandIsReadBack(r: Response)
    requires Printable(Payload(r))
    ensures ExtractBool(Printed(Payload(r)), "success") == Some(r.success)
    ensures ExtractNumber(Printed(Payload(r)), "tx_power_dbm") == Some(r.power)
  {
    hide Printed, Mimics, Target, FieldOf, ExtractBool, ExtractNumber;
    var fields := Payload(r);
    FieldAt(fields, "success", 2);
    FieldAt(fields, "tx_power_dbm", 4);
    NoMimic(fields[0].value, "success");
    NoMimic(fields[0].value, "tx_power_dbm");
    NoMimic(fields[1].value, "tx_power_dbm");
    NoMimic(fields[2].value, "tx_power_dbm");
    TargetIsFieldIff(fields, "success");
    TargetIsFieldIff(fields, "tx_power_dbm");
    ExtractBoolIsTarget(fields, "success");
    ExtractNumberIsTarget(fields, "tx_power_dbm");
  }

  /** A diagnostic with no string between it and the status is found if and only if the status does not mimic its key. */
  lemma DiagnosticIsFoundIff(r: Response, key: string, k: nat)
    requires FieldOf(Payload(r), key) == Some(k) && k >= 5
    requires forall j :: 5 <= j < k ==> !Payload(r)[j].value.Str?
    ensures Target(Payload(r), key) == Some(k) <==> !Mimics(Str(r.status), key)
  {
    hide Mimics, Target, FieldOf;
    var fields := Payload(r);
    TargetIsFieldIff(fields, key);
    forall j | 0 <= j < k && j != 3 ensures !Mimics(fields[j].value, key) {
      NoMimic(fields[j].value, key);
    }
    assert fields[3].value == Str(r.status);
  }

  lemma {:induction false} TargetAfterMimic(fields: seq<Field>, key: string, k: nat)
    requires k + 1 < |fields| && Mimics(fields[k].value, key)
    requires forall j :: 0 <= j < k ==> !Mimics(fields[j].value, key)
    requires forall j :: 0 <= j <= k ==> fields[j].key != key
    ensures Target(fields, key) == Some(k + 1)
  {
    if k > 0 {
      TargetAfterMimic(fields[1..], key, k - 1);
    }
  }

  /** A status equal to the key of a diagnostic: the power is read in its place. */
  lemma MimickingStatusMisleads(r: Response, key: string, k: nat)
    requires Printable(Payload(r)) && FieldOf(Payload(r), key) == Some(k) && k >= 5 && r.status == key
    ensures ExtractNumber(Printed(Payload(r)), key) == Some(r.power)
  {
    hide Printed, ExtractNumber, Target, FieldOf, Mimics;
    var fields := Payload(r);
    assert fields[k] in fields && fields[k].key == key;
    NoMimic(fields[0].value, key);
    NoMimic(fields[1].value, key);
    NoMimic(fields[2].value, key);
    StatusMimics(key);
    TargetAfterMimic(fields, key, 3);
    ExtractNumberIsTarget(fields, key);
  }

  /** A response whose status is the key of its last diagnostic. */
  function MimickingResponse(): Response {
    Response("0", "1.5", true, "objective", "17.25", [Field("objective", Num("2.5"))])
  }

  lemma LeadingIsPrintable()
    ensures IsKey("step") && IsKey("time_s") && IsKey("success") && IsToken("0") && IsToken("1.5")
  {
  }

  lemma RestIsPrintable()
    ensures IsKey("solver_status") && IsKey("tx_power_dbm") && IsKey("objective") && IsToken("17.25") && IsToken("2.5")
  {
  }

  lemma MimickingResponseIsPrintable()
    ensures Printable(Payload(MimickingResponse()))
  {
    hide IsKey, IsToken;
    LeadingIsPrintable();
    RestIsPrintable();
  }

  /** The power of that response is taken for its objective. */
  lemma ObjectiveIsMisread()
    ensures FieldOf(Payload(MimickingResponse()), "objective") == Some(5)
    ensures Payload(MimickingResponse())[5].value == Num("2.5")
    ensures ExtractNumber(Printed(Payload(MimickingResponse())), "objective") == Some("17.25")
  {
    hide Printable, Printed, ExtractNumber;
    MimickingResponseIsPrintable();
    FieldAt(Payload(MimickingResponse()), "objective", 5);
    MimickingStatusMisleads(MimickingResponse(), "objective", 5);
  }

  lemma StatusMimics(key: string)
    ensures Mimics(Str(key), key)
  {
  }

  /** The status is read back if and only if it needed no escape; a quote in it cuts it. */
  lemma StatusIsReadBackIff(r: Response)
    requires Printable(Payload(r))
    ensures ExtractString(Printed(Payload(r)), "solver_status") == Some(r.status)
      <==> forall c :: c in r.status ==> !NeedsEscape(c)
    ensures r.status == ['"'] ==> ExtractString(Printed(Payload(r)), "solver_status") != Some(r.status)
  {
    hide Printed, ExtractString, Target, FieldOf, Mimics;
    var fields := Payload(r);
    FieldAt(fields, "solver_status", 3);
    NoMimic(fields[0].value, "solver_status");
    NoMimic(fields[1].value, "solver_status");
    NoMimic(fields[2].value, "solver_status");
    TargetIsFieldIff(fields, "solver_status");
    ExtractStringIntactIff(fields, "solver_status", 3);
    assert NeedsEscape('"') && '"' in ['"'];
  }

  // ----- The extractors as written -----

  method Find(content: string, needle: string, from: nat) returns (pos: Option<nat>)
    requires from <= |content|
    ensures match pos
            case None => AfterFirst(content[from..], needle) == None
            case Some(p) => from <= p <= p + |needle| <= |content|
                            && AfterFirst(content[from..], needle) == Some(content[p + |needle|..])
  {
    var p := from;
    while p < |content| && !(needle <= content[p..])
      invariant from <= p <= |content| && AfterFirst(content[from..], needle) == AfterFirst(content[p..], needle)
    {
      assert content[p..][1..] == content[p + 1..];
      p := p + 1;
    }
    if needle <= content[p..] {
      assert content[p..][|needle|..] == content[p + |needle|..];
      return Some(p);
    }
    pos := None;
  }

  /** The position after the colon that follows the quoted key. */
  method FindField(content: string, key: string) returns (pos: Option<nat>)
    ensures match pos
            case None => Locate(content, key) == None
            case Some(p) => p <= |content| && Locate(content, key) == Some(content[p..])
  {
    var needle := Needle(key);
    var found := Find(content, needle, 0);
    assert content[0..] == content;
    if found == None {
      return None;
    }
    var colon := Find(content, ":", found.value + |needle|);
    pos := if colon.Some? then Some(colon.value + 1) else None;
  }

  method SkipSpaces(content: string, from: nat) returns (pos: nat)
    requires from <= |content|
    ensures from <= pos <= |content| && SkipSpace(content[from..]) == content[pos..]
  {
    pos := from;
    while pos < |content| && IsSpace(content[pos])
      invariant from <= pos <= |content| && SkipSpace(content[from..]) == SkipSpace(content[pos..])
    {
      assert content[pos..][1..] == content[pos + 1..];
      pos := pos + 1;
    }
  }

  /** `end` may move on over a number character. */
  lemma NumberGoesOn(content: string, pos: nat, end: nat)
    requires pos <= end < |content| && NumberChar(content[end])
    requires NumberPrefix(content[pos..]) == content[pos..end] + NumberPrefix(content[end..])
    ensures NumberPrefix(content[pos..]) == content[pos..end + 1] + NumberPrefix(content[end + 1..])
  {
    hide NumberChar;
    assert content[end..][1..] == content[end + 1..] && content[end..][0] == content[end];
    var rest := NumberPrefix(content[end + 1..]);
    assert NumberPrefix(content[end..]) == [content[end]] + rest;
    assert content[pos..end] + ([content[end]] + rest) == content[pos..end + 1] + rest;
  }

  lemma NumberEnds(s: string)
    requires s == [] || !NumberChar(s[0])
    ensures NumberPrefix(s) == []
  {
  }

  method TakeNumber(content: string, pos: nat) returns (end: nat)
    requires pos <= |content|
    ensures pos <= end <= |content| && content[pos..end] == NumberPrefix(content[pos..])
  {
    hide NumberChar, NumberPrefix;
    end := pos;
    while end < |content| && NumberChar(content[end])
      invariant pos <= end <= |content|
      invariant NumberPrefix(content[pos..]) == content[pos..end] + NumberPrefix(content[end..])
    {
      NumberGoesOn(content, pos, end);
      end := end + 1;
    }
    NumberEnds(content[end..]);
  }

  method ExtractJsonNumber(content: string, key: string) returns (token: Option<string>)
    ensures token == ExtractNumber(content, key)
  {
    hide Locate, NumberPrefix, SkipSpace;
    var found := FindField(content, key);
    if found == None {
      return None;
    }
    var pos := SkipSpaces(content, found.value);
    var end := TakeNumber(content, pos);
    token := if end == pos then None else Some(content[pos..end]);
  }

  method ExtractJsonBool(content: string, key: string) returns (value: Option<bool>)
    ensures value == ExtractBool(content, key)
  {
    hide Locate, SkipSpace;
    var found := FindField(content, key);
    if found == None {
      return None;
    }
    var pos := SkipSpaces(content, found.value);
    if "true" <= content[pos..] {
      return Some(true);
    }
    if "false" <= content[pos..] {
      return Some(false);
    }
    value := None;
  }

  method TakeString(content: string, pos: nat) returns (text: Option<string>)
    requires pos <= |content|
    ensures text == UpToQuote(content[pos..])
  {
    var end := pos;
    while end < |content| && content[end] != '"'
      invariant pos <= end <= |content| && '"' !in content[pos..end]
    {
      assert content[pos..end + 1] == content[pos..end] + [content[end]];
      end := end + 1;
    }
    if end == |content| {
      NoQuoteAhead(content[pos..]);
      return None;
    }
    assert content[pos..] == content[pos..end] + ("\"" + content[end + 1..]);
    UpToQuoteSplits(content[pos..end], content[end + 1..]);
    text := Some(content[pos..end]);
  }

  lemma {:induction false} NoQuoteAhead(s: string)
    requires '"' !in s
    ensures UpToQuote(s) == None
  {
    if s != [] {
      assert s[0] in s;
      NoQuoteAhead(s[1..]);
    }
  }

  method ExtractJsonString(content: string, key: string) returns (value: Option<string>)
    ensures value == ExtractString(content, key)
  {
    hide Locate, UpToQuote, AfterFirst;
    var found := FindField(content, key);
    if found == None {
      return None;
    }
    var open := Find(content, "\"", found.value);
    if open == None {
      return None;
    }
    value := TakeString(content, open.value + 1);
  }
}
