/** The substring scanner that reads configuration values, and the C library functions it calls. */
module JsonScan {
  import opened Options

  const NUL: char := '\0'

  /** `isspace` in the C locale. */
  predicate IsSpace(c: char) {
    c == ' ' || c == '\t' || c == '\n' || c == '\r' || c == '\U{0B}' || c == '\U{0C}'
  }

  predicate IsDigit(c: char) {
    '0' <= c <= '9'
  }

  /** No double quote inside. */
  predicate Plain(s: string) {
    forall i :: 0 <= i < |s| ==> s[i] != '"'
  }

  function Quoted(s: string): string {
    "\"" + s + "\""
  }

  /** `strstr`: what stands behind the first occurrence of a pattern. */
  function AfterFirst(text: string, pattern: string): Option<string> {
    if pattern <= text then Some(text[|pattern|..])
    else if text == [] then None
    else AfterFirst(text[1..], pattern)
  }

  function SkipSpace(s: string): string {
    if s != [] && IsSpace(s[0]) then SkipSpace(s[1..]) else s
  }

  /** The text from a key's value on: behind the first occurrence of the quoted key, the next colon and blanks. */
  function ValueOf(text: string, key: string): Option<string> {
    match AfterFirst(text, Quoted(key))
    case None => None
    case Some(p) =>
      match AfterFirst(p, ":")
      case None => None
      case Some(q) => Some(SkipSpace(q))
  }

  /** How many characters are copied into a buffer of this size before a quote, the end of the text, or the last place. */
  function Span(p: string, size: nat): (n: nat)
    ensures n <= |p| && (size > 0 ==> n < size)
  {
    if p == [] || p[0] == '"' || size <= 1 then 0 else 1 + Span(p[1..], size - 1)
  }

  /** The copy ends at the closing quote. */
  predicate Closed(p: string, size: nat) {
    Span(p, size) < |p| && p[Span(p, size)] == '"'
  }

  /** The buffer after a string was read into it: the text and a NUL, or on failure only what was copied before. */
  function Filled(p: string, out: string): (r: string)
    requires out != []
    ensures |r| == |out|
  {
    var n := Span(p, |out|);
    if Closed(p, |out|) then p[..n] + [NUL] + out[n + 1..] else p[..n] + out[n..]
  }

  predicate IsText(v: Option<string>) {
    v.Some? && v.value != [] && v.value[0] == '"'
  }

  function TextRead(text: string, key: string, out: string): (r: string)
    requires out != []
    ensures |r| == |out|
  {
    var v := ValueOf(text, key);
    if IsText(v) then Filled(v.value[1..], out) else out
  }

  /** The digits at the head of a text, read on from `acc`. */
  function DigitsValue(d: string, acc: nat): nat {
    if d != [] && IsDigit(d[0]) then DigitsValue(d[1..], 10 * acc + (d[0] as int - '0' as int)) else acc
  }

  /** A number that fits in a `long`, or the nearest one that does. */
  function Saturated(v: int): int {
    if v < -0x8000_0000_0000_0000 then -0x8000_0000_0000_0000
    else if v > 0x7FFF_FFFF_FFFF_FFFF then 0x7FFF_FFFF_FFFF_FFFF
    else v
  }

  /** `strtol` in base ten, or nothing when no digit is found. */
  function Strtol(p: string): Option<int> {
    var q := SkipSpace(p);
    var signed := q != [] && (q[0] == '-' || q[0] == '+');
    var d := if signed then q[1..] else q;
    if d == [] || !IsDigit(d[0]) then None
    else Some(Saturated((if signed && q[0] == '-' then -1 else 1) * DigitsValue(d, 0)))
  }

  /** `(int)value` for a `long`. */
  function Int32(v: int): (r: int)
    ensures -0x8000_0000 <= r < 0x8000_0000
    ensures -0x8000_0000 <= v < 0x8000_0000 ==> r == v
    ensures (v - r) % 0x1_0000_0000 == 0
  {
    (v + 0x8000_0000) % 0x1_0000_0000 - 0x8000_0000
  }

  function NumberRead(text: string, key: string, out: int): int {
    var v := ValueOf(text, key);
    if v.None? || Strtol(v.value).None? then out else Int32(Strtol(v.value).value)
  }

  // The scanner itself.

  method SkipWs(s: string) returns (rest: string)
    ensures rest == SkipSpace(s)
  {
    rest := s;
    while rest != [] && IsSpace(rest[0])
      invariant SkipSpace(rest) == SkipSpace(s)
    {
      rest := rest[1..];
    }
  }

  method FindKey(json: string, key: string) returns (value: Option<string>)
    ensures value == ValueOf(json, key)
  {
    var p := AfterFirst(json, Quoted(key));
    if p.None? {
      return None;
    }
    var q := AfterFirst(p.value, ":");
    if q.None? {
      return None;
    }
    var rest := SkipWs(q.value);
    value := Some(rest);
  }

  /** Fills `out` in place. */
  method GetString(json: string, key: string, out: array<char>) returns (ok: bool)
    requires out.Length > 0
    modifies out
    ensures out[..] == TextRead(json, key, old(out[..]))
    ensures ok <==> IsText(ValueOf(json, key)) && Closed(ValueOf(json, key).value[1..], out.Length)
  {
    hide ValueOf, Span;
    var v := FindKey(json, key);
    if v.None? || v.value == [] || v.value[0] != '"' {
      return false;
    }
    var p := v.value[1..];
    var len := CopySpan(p, out);
    if len == |p| || p[len] != '"' {
      return false;
    }
    out[len] := NUL;
    ok := true;
  }

  /** The copying loop. */
  method CopySpan(p: string, out: array<char>) returns (len: nat)
    requires out.Length > 0
    modifies out
    ensures len == Span(p, out.Length)
    ensures out[..] == p[..len] + old(out[..])[len..]
  {
    hide Span;
    len := 0;
    while len < |p| && p[len] != '"' && len + 1 < out.Length
      invariant len <= |p| && len < out.Length
      invariant len + Span(p[len..], out.Length - len) == Span(p, out.Length)
      invariant out[..len] == p[..len]
      invariant out[len..] == old(out[..])[len..]
    {
      SpanNext(p, len, out.Length);
      out[len] := p[len];
      len := len + 1;
    }
    SpanEnd(p, len, out.Length);
    assert out[..] == out[..len] + out[len..];
  }

  lemma SpanNext(p: string, n: nat, size: nat)
    requires n < |p| && p[n] != '"' && n + 1 < size
    ensures Span(p[n..], size - n) == 1 + Span(p[n + 1..], size - (n + 1))
  {
    assert p[n..][1..] == p[n + 1..];
  }

  lemma SpanEnd(p: string, n: nat, size: nat)
    requires n <= |p| && n < size && (n == |p| || p[n] == '"' || n + 1 == size)
    ensures Span(p[n..], size - n) == 0
  {
  }

  method GetInt(json: string, key: string, out: int) returns (value: int)
    ensures value == NumberRead(json, key, out)
  {
    var v := FindKey(json, key);
    if v.None? {
      return out;
    }
    var parsed := Strtol(v.value);
    if parsed.None? {
      return out;
    }
    value := Int32(parsed.value);
  }

  // Where the first occurrence of a quoted key is.

  /** The search ends behind the leftmost occurrence, or there is none. */
  lemma {:induction false} Leftmost(text: string, pattern: string) returns (i: nat)
    ensures i <= |text| && forall j :: 0 <= j < i ==> !(pattern <= text[j..])
    ensures
      match AfterFirst(text, pattern)
      case Some(rest) => text[i..] == pattern + rest
      case None => i == |text| && !(pattern <= [])
    decreases |text|
  {
    assert text[0..] == text;
    if pattern <= text || text == [] {
      i := 0;
    } else {
      var k := Leftmost(text[1..], pattern);
      i := k + 1;
      forall j | 0 <= j < i
        ensures !(pattern <= text[j..])
      {
        assert j > 0 ==> text[j..] == text[1..][j - 1..];
      }
    }
  }

  lemma {:induction false} SkipPlain(s: string, t: string, key: string)
    requires Plain(s)
    ensures AfterFirst(s + t, Quoted(key)) == AfterFirst(t, Quoted(key))
    decreases |s|
  {
    if s == [] {
      assert s + t == t;
    } else {
      var text := s + t;
      assert text[0] == s[0] != '"' == Quoted(key)[0];
      assert text[1..] == s[1..] + t;
      SkipPlain(s[1..], t, key);
    }
  }

  /** The token behind a quote is determined by the text: it ends at the next quote. */
  lemma {:induction false} TokenUnique(v: string, t: string, key: string)
    requires Plain(v) && Plain(key) && Quoted(key) <= Quoted(v) + t
    ensures v == key
  {
    var text := Quoted(v) + t;
    assert Quoted(key) == text[..|key| + 2];
    assert text[|v| + 1] == '"' && Quoted(key)[|key| + 1] == '"';
    assert forall j :: 0 <= j < |v| ==> text[j + 1] == v[j];
    assert forall j :: 0 <= j < |key| ==> Quoted(key)[j + 1] == key[j];
    assert text[|key| + 1] == '"';
    assert v == text[1..|v| + 1];
    assert key == text[1..|key| + 1];
  }

  /** At the quote before a token other than the key there is no match. */
  lemma {:induction false} PassQuoted(v: string, t: string, key: string)
    requires Plain(v) && Plain(key) && v != key
    ensures AfterFirst(Quoted(v) + t, Quoted(key)) == AfterFirst("\"" + t, Quoted(key))
  {
    var text := Quoted(v) + t;
    if Quoted(key) <= text {
      TokenUnique(v, t, key);
    }
    assert text[1..] == v + ("\"" + t);
    SkipPlain(v, "\"" + t, key);
  }

  /** At a quote before anything that does not begin like the key there is no match. */
  lemma {:induction false} PassOutside(t: string, key: string)
    requires key != [] && t != [] && t[0] != key[0]
    ensures AfterFirst("\"" + t, Quoted(key)) == AfterFirst(t, Quoted(key))
  {
    var text := "\"" + t;
    assert text[1] == t[0] && Quoted(key)[1] == key[0];
    assert text[1..] == t;
  }

  lemma {:induction false} FoundHere(t: string, key: string)
    ensures AfterFirst(Quoted(key) + t, Quoted(key)) == Some(t)
  {
  }

  /** `strchr`, past the character it finds. */
  lemma {:induction false} AfterFirstChar(s: string, t: string, c: char)
    requires c !in s
    ensures AfterFirst(s + [c] + t, [c]) == Some(t)
    decreases |s|
  {
    var text := s + [c] + t;
    if s == [] {
      assert text[1..] == t;
    } else {
      assert text[0] != c;
      assert text[1..] == s[1..] + [c] + t;
      AfterFirstChar(s[1..], t, c);
    }
  }

  lemma {:induction false} AbsentChar(s: string, c: char)
    requires c !in s
    ensures AfterFirst(s, [c]) == None
    decreases |s|
  {
    if s != [] {
      assert s[0] != c;
      AbsentChar(s[1..], c);
    }
  }

  lemma SkipBlank(v: string)
    requires v != [] && !IsSpace(v[0])
    ensures SkipSpace(" " + v) == v
  {
    assert (" " + v)[1..] == v;
  }

  /** From a colon and a blank to the value behind them. */
  lemma {:induction false} ValueBehindColon(text: string, key: string, v: string)
    requires AfterFirst(text, Quoted(key)) == Some(": " + v)
    requires v != [] && !IsSpace(v[0])
    ensures ValueOf(text, key) == Some(v)
  {
    assert ": " + v == [] + [':'] + (" " + v);
    AfterFirstChar([], " " + v, ':');
    SkipBlank(v);
  }

  lemma {:induction false} SpaceSkipped(s: string) returns (n: nat)
    ensures n <= |s| && SkipSpace(s) == s[n..] && forall k :: 0 <= k < n ==> IsSpace(s[k])
    ensures n < |s| ==> !IsSpace(s[n])
    decreases |s|
  {
    if s != [] && IsSpace(s[0]) {
      var m := SpaceSkipped(s[1..]);
      n := m + 1;
    } else {
      n := 0;
    }
  }

  /** `i` is where the pattern occurs first. */
  ghost predicate FirstAt(text: string, pattern: string, i: nat) {
    && i + |pattern| <= |text| && text[i..i + |pattern|] == pattern
    && forall j :: 0 <= j < i ==> !(pattern <= text[j..])
  }

  /**
   Where the value of a key is: the quoted key occurs first at `i`, the first colon behind it is at `colon`, and
   only white space stands between that and the value at `at`. Without a value, the key or the colon is missing.
   */
  lemma {:induction false} ValuePlace(text: string, key: string) returns (i: nat, colon: nat, at: nat)
    ensures
      var behind := i + |Quoted(key)|;
      match ValueOf(text, key)
      case Some(v) =>
        && FirstAt(text, Quoted(key), i)
        && behind <= colon < at <= |text| && text[colon] == ':' && ':' !in text[behind..colon]
        && (forall k :: colon < k < at ==> IsSpace(text[k]))
        && v == text[at..] && (v == [] || !IsSpace(v[0]))
      case None =>
        || (forall j :: 0 <= j <= |text| ==> !(Quoted(key) <= text[j..]))
        || (FirstAt(text, Quoted(key), i) && ':' !in text[behind..])
  {
    hide AfterFirst, Quoted, FirstAt, SkipSpace;
    i := Leftmost(text, Quoted(key));
    colon, at := 0, 0;
    var p := AfterFirst(text, Quoted(key));
    if p.Some? {
      var behind := i + |Quoted(key)|;
      PlacedAt(text, Quoted(key), i, p.value);
      colon, at := ColonPlace(text, behind);
    }
  }

  lemma {:induction false} PlacedAt(text: string, pattern: string, i: nat, rest: string)
    requires i <= |text| && text[i..] == pattern + rest && forall j :: 0 <= j < i ==> !(pattern <= text[j..])
    ensures FirstAt(text, pattern, i) && text[i + |pattern|..] == rest
  {
    assert text[i..][..|pattern|] == text[i..i + |pattern|];
    assert text[i..][|pattern|..] == text[i + |pattern|..];
  }

  /** The first colon from `behind` on, and the first character after it that is no white space. */
  lemma {:induction false} ColonPlace(text: string, behind: nat) returns (colon: nat, at: nat)
    requires behind <= |text|
    ensures
      match AfterFirst(text[behind..], ":")
      case Some(q) =>
        && behind <= colon < at <= |text| && text[colon] == ':' && ':' !in text[behind..colon]
        && (forall k :: colon < k < at ==> IsSpace(text[k]))
        && SkipSpace(q) == text[at..] && (text[at..] == [] || !IsSpace(text[at]))
      case None => ':' !in text[behind..]
  {
    hide AfterFirst, SkipSpace, FirstAt;
    var p := text[behind..];
    var c := Leftmost(p, ":");
    NoEarlierChar(p, ':', c);
    colon, at := behind + c, behind;
    var q := AfterFirst(p, ":");
    if q.Some? {
      PlacedAt(p, ":", c, q.value);
      var n := SpaceSkipped(q.value);
      at := colon + 1 + n;
      assert text[at..] == q.value[n..];
      assert text[behind..colon] == p[..c];
      assert forall k :: colon < k < at ==> text[k] == q.value[k - colon - 1];
    } else {
      assert p[..|p|] == p;
    }
  }

  lemma NoEarlierChar(s: string, c: char, n: nat)
    requires n <= |s| && forall j :: 0 <= j < n ==> !([c] <= s[j..])
    ensures c !in s[..n]
  {
    forall j | 0 <= j < n
      ensures s[j] != c
    {
      assert !([c] <= s[j..]);
    }
  }

  // Reading back what was printed.

  lemma {:induction false} SpanOfQuoted(s: string, t: string, size: nat)
    requires Plain(s) && |s| < size
    ensures Span(s + "\"" + t, size) == |s|
    decreases |s|
  {
    var p := s + "\"" + t;
    if s != [] {
      assert p[1..] == s[1..] + "\"" + t;
      SpanOfQuoted(s[1..], t, size - 1);
    }
  }

  /** The characters before the first NUL. */
  function CString(buffer: string): string {
    if buffer == [] || buffer[0] == NUL then [] else [buffer[0]] + CString(buffer[1..])
  }

  lemma {:induction false} CStringOf(s: string, t: string)
    requires NUL !in s
    ensures CString(s + [NUL] + t) == s
    decreases |s|
  {
    var b := s + [NUL] + t;
    if s != [] {
      assert b[1..] == s[1..] + [NUL] + t;
      CStringOf(s[1..], t);
    }
  }

  /** A quoted string that fits is read back whole. */
  lemma {:induction false} StringReadBack(text: string, key: string, s: string, t: string, out: string)
    requires ValueOf(text, key) == Some(Quoted(s) + t)
    requires Plain(s) && NUL !in s && |s| < |out|
    ensures CString(TextRead(text, key, out)) == s
  {
    hide ValueOf, Span, CString;
    var v := Quoted(s) + t;
    var p := s + "\"" + t;
    assert v[1..] == p;
    SpanOfQuoted(s, t, |out|);
    assert p[..|s|] == s && p[|s|] == '"';
    CStringOf(s, out[|s| + 1..]);
  }

  lemma {:induction false} SpanCut(s: string, t: string, size: nat)
    requires Plain(s) && 0 < size <= |s|
    ensures Span(s + t, size) == size - 1
    decreases size
  {
    if size > 1 {
      assert (s + t)[1..] == s[1..] + t;
      SpanCut(s[1..], t, size - 1);
    }
  }

  /** A quoted string that does not fit is cut, as the last place of the buffer still holds a NUL. */
  lemma {:induction false} StringCut(text: string, key: string, s: string, t: string, out: string)
    requires ValueOf(text, key) == Some(Quoted(s) + t)
    requires Plain(s) && NUL !in s && 0 < |out| <= |s| && out[|out| - 1] == NUL
    ensures CString(TextRead(text, key, out)) == s[..|out| - 1]
  {
    hide ValueOf, Span, CString;
    var v := Quoted(s) + t;
    var p, n := s + "\"" + t, |out| - 1;
    assert v[1..] == p == s + ("\"" + t);
    SpanCut(s, "\"" + t, |out|);
    assert p[..n] == s[..n] && p[n] == s[n] != '"';
    assert out[n..] == [NUL];
    CStringOf(s[..n], []);
    assert s[..n] + [NUL] + [] == s[..n] + out[n..];
  }

  function Digits(n: nat): (s: string)
    ensures s != [] && IsDigit(s[0])
  {
    var digit := ('0' as int + n % 10) as char;
    if n < 10 then [digit] else Digits(n / 10) + [digit]
  }

  function Decimal(v: int): (s: string)
    ensures s != [] && !IsSpace(s[0])
  {
    if v < 0 then "-" + Digits(-v) else Digits(v)
  }

  lemma {:induction false} DigitsReadBack(n: nat, t: string)
    ensures DigitsValue(Digits(n) + t, 0) == DigitsValue(t, n)
    decreases n
  {
    var digit := ('0' as int + n % 10) as char;
    assert ([digit] + t)[1..] == t;
    if n < 10 {
      assert Digits(n) + t == [digit] + t;
    } else {
      assert Digits(n) + t == Digits(n / 10) + ([digit] + t);
      DigitsReadBack(n / 10, [digit] + t);
    }
  }

  /** A number of any size is read as itself, or as the nearest one that 64 bits hold. */
  lemma {:induction false} DecimalReadBack(v: int, t: string)
    requires t == [] || !IsDigit(t[0])
    ensures
      Strtol(Decimal(v) + t)
      == Some(if v > 0x7FFF_FFFF_FFFF_FFFF then 0x7FFF_FFFF_FFFF_FFFF
              else if v < -0x8000_0000_0000_0000 then -0x8000_0000_0000_0000
              else v)
  {
    hide Digits;
    var p := Decimal(v) + t;
    DigitsReadBack(if v < 0 then -v else v, t);
    if v < 0 {
      assert p[1..] == Digits(-v) + t;
    }
  }
}
