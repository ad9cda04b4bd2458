/**
  Reading back what the printer writes: strings as section 7 of RFC 8259 has
  it, where a surrogate pair gives one character, and lists of numbers.
 */
module JsonReading {
  import opened Prelude
  import opened JsonFields

  // ----- Hexadecimal digits -----

  /** The value of a digit; anything else counts as 16. */
  function HexValue(c: char): nat {
    if '0' <= c <= '9' then c as int - '0' as int
    else if 'a' <= c <= 'f' then 10 + (c as int - 'a' as int)
    else if 'A' <= c <= 'F' then 10 + (c as int - 'A' as int)
    else 16
  }

  /** The number of four digits. */
  function HexNumber(s: string): Option<nat>
    requires |s| == 4
  {
    if exists c :: c in s && HexValue(c) > 15 then None
    else Some(4096 * HexValue(s[0]) + 256 * HexValue(s[1]) + 16 * HexValue(s[2]) + HexValue(s[3]))
  }

  lemma {:induction false} DigitIsRead(n: nat)
    requires n < 16
    ensures HexValue(HexDigit(n)) == n
  {
    if n < 10 {
      assert HexDigit(n) == '0' + n as char;
    } else {
      assert HexDigit(n) == 'a' + (n - 10) as char;
    }
  }

  lemma DigitsOfNumber(n: nat)
    requires n < 0x1_0000
    ensures 4096 * (n / 4096) + 256 * (n / 256 % 16) + 16 * (n / 16 % 16) + n % 16 == n
    ensures n / 4096 < 16
  {
  }

  lemma DigitsAreRead(a: nat, b: nat, c: nat, d: nat)
    requires a < 16 && b < 16 && c < 16 && d < 16
    ensures HexNumber([HexDigit(a), HexDigit(b), HexDigit(c), HexDigit(d)]) == Some(4096 * a + 256 * b + 16 * c + d)
  {
    hide HexDigit, HexValue;
    DigitIsRead(a);
    DigitIsRead(b);
    DigitIsRead(c);
    DigitIsRead(d);
  }

  lemma UnitIsRead(n: nat)
    requires n < 0x1_0000
    ensures Unit(n)[..2] == "\\u" && HexNumber(Unit(n)[2..]) == Some(n)
  {
    hide HexDigit, HexNumber;
    DigitsOfNumber(n);
    DigitsAreRead(n / 4096, n / 256 % 16, n / 16 % 16, n % 16);
  }

  // ----- Strings -----

  /** The escapes of two characters. */
  function Short(c: char): Option<char> {
    if c == '"' || c == '\\' || c == '/' then Some(c)
    else if c == 'b' then Some(8 as char)
    else if c == 'f' then Some(12 as char)
    else if c == 'n' then Some('\n')
    else if c == 'r' then Some('\r')
    else if c == 't' then Some('\t')
    else None
  }

  /** The unit of 16 bits that an escape of six characters at the front of `s` stands for. */
  function UnitAt(s: string): Option<nat> {
    if |s| < 6 || s[0] != '\\' || s[1] != 'u' then None else HexNumber(s[2..6])
  }

  /** One character at the front of a string's contents, and how many characters it takes. */
  function CharAt(s: string): (r: Option<(char, nat)>)
    requires s != []
    ensures r.Some? ==> 0 < r.value.1 <= |s|
  {
    if s[0] == '"' || s[0] < ' ' then None
    else if s[0] != '\\' then Some((s[0], 1))
    else if |s| < 2 then None
    else if s[1] != 'u' then match Short(s[1]) case None => None case Some(c) => Some((c, 2))
    else
      match UnitAt(s)
      case None => None
      case Some(n) =>
        if n < 0xd800 || 0xe000 <= n < 0x1_0000 then Some((n as char, 6))
        else if n >= 0xdc00 then None
        else
          match UnitAt(s[6..])
          case None => None
          case Some(m) =>
            if 0xdc00 <= m < 0xe000
            then Some(((0x1_0000 + 1024 * (n - 0xd800) + (m - 0xdc00)) as char, 12))
            else None
  }

  function Decoded(s: string): Option<string>
    decreases |s|
  {
    if s == [] then Some([])
    else
      match CharAt(s)
      case None => None
      case Some((c, k)) => match Decoded(s[k..]) case None => None case Some(t) => Some([c] + t)
  }

  lemma UnitAtFront(n: nat, rest: string)
    requires n < 0x1_0000
    ensures UnitAt(Unit(n) + rest) == Some(n) && (Unit(n) + rest)[6..] == rest
  {
    hide HexNumber, HexDigit;
    UnitIsRead(n);
    var s := Unit(n) + rest;
    assert s[2..6] == Unit(n)[2..] && s[0] == Unit(n)[..2][0] && s[1] == Unit(n)[..2][1];
  }

  lemma PairOf(m: nat)
    requires m < 0x10_0000
    ensures m / 1024 % 1024 == m / 1024 && m / 1024 < 1024 && 1024 * (m / 1024) + m % 1024 == m
  {
  }

  lemma PairIsRead(c: char, rest: string)
    requires c as int >= 0x1_0000
    ensures CharAt(Escape(c) + rest) == Some((c, 12)) && |Escape(c)| == 12
  {
    hide UnitAt, Unit, Short;
    var m := c as int - 0x1_0000;
    PairOf(m);
    var high, low := 0xd800 + m / 1024, 0xdc00 + m % 1024;
    var s := Escape(c) + rest;
    assert s == Unit(high) + (Unit(low) + rest);
    UnitAtFront(high, Unit(low) + rest);
    UnitAtFront(low, rest);
    UnitIsRead(high);
    assert s[1] == Unit(high)[..2][1] == 'u';
  }

  lemma UnitEscapeIsRead(c: char, rest: string)
    requires (c as int) < 0x1_0000 && Escape(c) == Unit(c as int)
    ensures CharAt(Escape(c) + rest) == Some((c, 6)) && |Escape(c)| == 6
  {
    hide UnitAt, Unit, Short;
    var n, s := c as int, Escape(c) + rest;
    UnitAtFront(n, rest);
    UnitIsRead(n);
    assert s[1] == Unit(n)[..2][1] == 'u';
  }

  lemma EscapeIsRead(c: char, rest: string)
    ensures CharAt(Escape(c) + rest) == Some((c, |Escape(c)|))
  {
    hide Unit, UnitAt;
    var n := c as int;
    if n >= 0x1_0000 {
      PairIsRead(c, rest);
    } else if NeedsEscape(c) && Escape(c) == Unit(n) {
      UnitEscapeIsRead(c, rest);
    } else {
      var s := Escape(c) + rest;
      if NeedsEscape(c) {
        assert |Escape(c)| == 2 && s[0] == '\\' && s[1] == Escape(c)[1];
      } else {
        assert Escape(c) == [c] && s[0] == c;
      }
    }
  }

  /** A printed string is read back as it was, whatever characters it holds. */
  lemma {:induction false} DecodedIsOriginal(s: string)
    ensures Decoded(Escaped(s)) == Some(s)
  {
    hide Escape, CharAt;
    if s != [] {
      var e, rest := Escape(s[0]), Escaped(s[1..]);
      EscapeIsRead(s[0], rest);
      assert (e + rest)[|e|..] == rest;
      DecodedIsOriginal(s[1..]);
      assert s == [s[0]] + s[1..];
    }
  }

  // ----- Lists of numbers -----

  /** The numbers in a text: its longest stretches of number characters, in order. */
  function TokensOf(s: string): seq<string>
    decreases |s|
  {
    if s == [] then []
    else if NumberChar(s[0]) then
      var t := NumberPrefix(s);
      PrefixIsPart(s);
      [t] + TokensOf(s[|t|..])
    else TokensOf(s[1..])
  }

  lemma {:induction false} PrefixIsPart(s: string)
    ensures |NumberPrefix(s)| <= |s|
    ensures s != [] && NumberChar(s[0]) ==> NumberPrefix(s) != []
  {
    if s != [] && NumberChar(s[0]) {
      PrefixIsPart(s[1..]);
    }
  }

  lemma {:induction false} SkipsGap(gap: string, s: string)
    requires forall c :: c in gap ==> !NumberChar(c)
    ensures TokensOf(gap + s) == TokensOf(s)
  {
    if gap == [] {
      assert gap + s == s;
    } else {
      assert (gap + s)[0] == gap[0] && gap[0] in gap && (gap + s)[1..] == gap[1..] + s;
      SkipsGap(gap[1..], s);
    }
  }

  lemma TakesToken(t: string, s: string)
    requires IsToken(t) && s != [] && !NumberChar(s[0])
    ensures TokensOf(t + s) == [t] + TokensOf(s)
  {
    TokenIsRead(t, s);
    assert (t + s)[0] == t[0] && t[0] in t && (t + s)[|t|..] == s;
  }

  lemma GapChars()
    ensures !NumberChar('\n') && !NumberChar(' ') && !NumberChar(',')
  {
  }

  lemma ItemIsRead(t: string, comma: string, s: string)
    requires IsToken(t) && (comma == "" || comma == ",") && s != [] && !NumberChar(s[0])
    ensures TokensOf("\n    " + (t + (comma + s))) == [t] + TokensOf(s)
  {
    hide TokensOf, IsToken, NumberChar;
    GapChars();
    SkipsGap("\n    ", t + (comma + s));
    TakesToken(t, comma + s);
    SkipsGap(comma, s);
  }

  lemma NoItems(rest: string)
    ensures Items([]) + rest == rest
  {
  }

  lemma Regroup(a: string, b: string, c: string, d: string, e: string)
    ensures (a + b + c + d) + e == a + (b + (c + (d + e)))
  {
  }

  lemma ItemsUnfold(ts: seq<string>, comma: string, rest: string)
    requires ts != [] && comma == if |ts| == 1 then "" else ","
    ensures Items(ts) + rest == "\n    " + (ts[0] + (comma + (Items(ts[1..]) + rest)))
  {
    var gap, tail := "\n    ", Items(ts[1..]);
    assert Items(ts) == gap + ts[0] + comma + tail;
    Regroup(gap, ts[0], comma, tail, rest);
  }

  lemma {:induction false} ItemsAreRead(ts: seq<string>, rest: string)
    requires (forall t :: t in ts ==> IsToken(t)) && rest != [] && !NumberChar(rest[0])
    ensures TokensOf(Items(ts) + rest) == ts + TokensOf(rest)
  {
    hide TokensOf, IsToken, NumberChar, Items;
    if ts == [] {
      NoItems(rest);
    } else {
      var comma := if |ts| == 1 then "" else ",";
      var after := Items(ts[1..]) + rest;
      ItemsUnfold(ts, comma, rest);
      ItemsStart(ts[1..], rest);
      ItemIsRead(ts[0], comma, after);
      ItemsAreRead(ts[1..], rest);
      assert ts == [ts[0]] + ts[1..];
    }
  }

  lemma ItemsStart(ts: seq<string>, rest: string)
    requires rest != [] && !NumberChar(rest[0])
    ensures var s := Items(ts) + rest; s != [] && !NumberChar(s[0])
  {
    if ts != [] {
      assert Items(ts)[0] == '\n';
    }
  }

  lemma NoTokens()
    ensures TokensOf("") == []
  {
  }

  /** The numbers of a printed list are those of the list, in order. */
  lemma ListIsRead(ts: seq<string>)
    requires forall t :: t in ts ==> IsToken(t)
    ensures TokensOf(ValueText(Nums(ts))) == ts
  {
    hide TokensOf, IsToken, Items;
    assert TokensOf("") == [] by { NoTokens(); }
    if ts == [] {
      SkipsGap("[]", "");
      assert "[]" + "" == "[]";
    } else {
      SkipsGap("[", Items(ts) + "\n  ]");
      ItemsAreRead(ts, "\n  ]");
      SkipsGap("\n  ]", "");
      assert "\n  ]" + "" == "\n  ]";
      assert "[" + (Items(ts) + "\n  ]") == ValueText(Nums(ts));
    }
  }
}
