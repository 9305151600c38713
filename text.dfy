/** The string operations the price normaliser relies on, as Python defines
    them: `str.replace` with a one-character pattern, and `int(str)`. */
module Text {
  import opened Wrappers

  predicate IsDigit(c: char) {
    '0' <= c <= '9'
  }

  /** The whitespace `int()` ignores around the numeral. Outside ASCII
      every Unicode space counts; inside ASCII only tab, line feed, vertical
      tab, form feed, carriage return and space do. */
  predicate IsSpace(c: char) {
    ('\t' <= c <= '\r') || c == ' ' ||
    c == '\U{85}' || c == '\U{A0}' || c == '\U{1680}' ||
    ('\U{2000}' <= c <= '\U{200A}') || c == '\U{2028}' || c == '\U{2029}' ||
    c == '\U{202F}' || c == '\U{205F}' || c == '\U{3000}'
  }

  predicate AllDigits(d: string) {
    forall i :: 0 <= i < |d| ==> IsDigit(d[i])
  }

  function DigitValue(c: char): nat
    requires IsDigit(c)
  {
    (c as int) - ('0' as int)
  }

  function DigitChar(n: nat): (c: char)
    requires n < 10
    ensures IsDigit(c) && DigitValue(c) == n
  {
    (('0' as int) + n) as char
  }

  /** The number a string of decimal digits denotes. */
  function DigitsValue(d: string): nat
    requires AllDigits(d)
  {
    if d == [] then 0 else 10 * DigitsValue(d[..|d| - 1]) + DigitValue(d[|d| - 1])
  }

  function Pow10(n: nat): (p: nat)
    ensures p >= 1
  {
    if n == 0 then 1 else 10 * Pow10(n - 1)
  }

  /** `s.replace(pat, rep)` for a one-character `pat`: every occurrence is
      replaced, left to right. */
  function Replace(s: string, pat: char, rep: string): (r: string)
    ensures forall c :: c in r ==> c in rep || (c in s && c != pat)
  {
    if s == [] then []
    else (if s[0] == pat then rep else [s[0]]) + Replace(s[1..], pat, rep)
  }

  /** How many whitespace characters `s` starts with. */
  function Leading(s: string): (k: nat)
    ensures k <= |s|
    ensures forall j :: 0 <= j < k ==> IsSpace(s[j])
    ensures k < |s| ==> !IsSpace(s[k])
  {
    if s == [] || !IsSpace(s[0]) then 0
    else
      var k := Leading(s[1..]);
      assert forall j :: 1 <= j <= k ==> s[j] == s[1..][j - 1];
      1 + k
  }

  /** How many whitespace characters `s` ends with. */
  function Trailing(s: string): (k: nat)
    ensures k <= |s|
    ensures forall j :: |s| - k <= j < |s| ==> IsSpace(s[j])
    ensures k < |s| ==> !IsSpace(s[|s| - 1 - k])
  {
    if s == [] || !IsSpace(s[|s| - 1]) then 0
    else 1 + Trailing(s[..|s| - 1])
  }

  /** The digits `int()` accepts: one or more decimal digits, where single
      underscores may separate two digits. */
  predicate IsNumeral(t: string) {
    |t| > 0 && IsDigit(t[0]) && IsDigit(t[|t| - 1]) &&
    (forall i :: 0 <= i < |t| ==> IsDigit(t[i]) || t[i] == '_') &&
    (forall i, j :: 0 <= i < j <= i + 1 && j < |t| ==> !(t[i] == '_' && t[j] == '_'))
  }

  function NumeralValue(t: string): nat
    requires IsNumeral(t)
  {
    var d := Replace(t, '_', "");
    assert forall i :: 0 <= i < |d| ==> d[i] in d;
    DigitsValue(d)
  }

  /** The characters `int()` can accept at all. */
  predicate IntChar(c: char) {
    IsSpace(c) || IsDigit(c) || c == '+' || c == '-' || c == '_'
  }

  /** The decimal digits of `s` in order, everything else dropped. */
  function Digits(s: string): (d: string)
    ensures AllDigits(d)
  {
    if s == [] then []
    else
      var rest := Digits(s[1..]);
      if IsDigit(s[0]) then [s[0]] + rest else rest
  }

  /** What `int()` demands of its argument, read off the whole string: at
      least one digit; a sign only after nothing but whitespace, and then
      right before a digit; an underscore only between two digits; no
      whitespace between two digits. */
  predicate HasDigit(s: string) {
    exists i :: 0 <= i < |s| && IsDigit(s[i])
  }

  predicate SignLeads(s: string) {
    (forall i :: 0 <= i < |s| && (s[i] == '+' || s[i] == '-') ==>
       i + 1 < |s| && forall j :: 0 <= j < i ==> IsSpace(s[j])) &&
    (forall i, j :: 0 <= i < j <= i + 1 && j < |s| && (s[i] == '+' || s[i] == '-') ==> IsDigit(s[j]))
  }

  predicate UnderscoresJoinDigits(s: string) {
    (forall i :: 0 <= i < |s| && s[i] == '_' ==> 0 < i < |s| - 1) &&
    (forall i, j :: 0 <= i < j <= i + 1 && j < |s| && s[i] == '_' ==> IsDigit(s[j])) &&
    (forall i, j :: 0 <= i < j <= i + 1 && j < |s| && s[j] == '_' ==> IsDigit(s[i]))
  }

  predicate DigitsUnbroken(s: string) {
    forall i, j, k :: 0 <= i < j < k < |s| && IsDigit(s[i]) && IsDigit(s[k]) ==> !IsSpace(s[j])
  }

  /** `int(s)` with base 10: surrounding whitespace, then an optional sign,
      then a numeral; anything else raises ValueError, here `None`. The
      exact shape accepted and the value are `ParseIntExact`. */
  function ParseInt(s: string): (r: Option<int>)
    ensures r.Some? ==>
              forall i :: 0 <= i < |s| ==> IntChar(s[i])
  {
    var lo := Leading(s);
    if lo == |s| then None
    else
      var hi := |s| - Trailing(s);
      var off := if s[lo] == '+' || s[lo] == '-' then lo + 1 else lo;
      if IsNumeral(s[off..hi]) then
        LayoutOf(s, lo, off, hi);
        LayoutChars(s, lo, off, hi);
        var v: int := NumeralValue(s[off..hi]);
        Some(if s[lo] == '-' then -v else v)
      else None
  }

  /** `int(s)` accepts exactly the strings of the shape `IntShaped`
      describes, and its value is that of the string's digits, negated when
      the string holds a minus sign. */
  lemma ParseIntExact(s: string)
    ensures ParseInt(s).Some? <==> IntShaped(s)
    ensures ParseInt(s).Some? ==>
              ParseInt(s).value == if '-' in s then -(DigitsValue(Digits(s)) as int) else DigitsValue(Digits(s))
  {
    if ParseInt(s).Some? {
      ParsedShaped(s);
    } else if IntShaped(s) {
      ShapedParses(s);
    }
  }

  lemma ParsedShaped(s: string)
    requires ParseInt(s).Some?
    ensures IntShaped(s)
    ensures ParseInt(s).value == if '-' in s then -(DigitsValue(Digits(s)) as int) else DigitsValue(Digits(s))
  {
    var lo, off, hi := ParseIntParts(s);
    LayoutShaped(s, lo, off, hi);
    LayoutSign(s, lo, off, hi);
    LayoutDigits(s, lo, off, hi);
    DigitsSplit(s, off, hi);
  }

  lemma LayoutShaped(s: string, lo: nat, off: nat, hi: nat)
    requires Layout(s, lo, off, hi)
    ensures IntShaped(s)
  {
    LayoutChars(s, lo, off, hi);
    LayoutSign(s, lo, off, hi);
    LayoutUnderscores(s, lo, off, hi);
    LayoutUnbroken(s, lo, off, hi);
  }

  /** Where `ParseInt` found the sign and the numeral of a string it
      accepted, and the value it read there. */
  lemma ParseIntParts(s: string) returns (lo: nat, off: nat, hi: nat)
    requires ParseInt(s).Some?
    ensures Layout(s, lo, off, hi) && IsNumeral(s[off..hi])
    ensures ParseInt(s).value == if s[lo] == '-' then -(NumeralValue(s[off..hi]) as int) else NumeralValue(s[off..hi])
  {
    lo := Leading(s);
    hi := |s| - Trailing(s);
    off := if s[lo] == '+' || s[lo] == '-' then lo + 1 else lo;
    LayoutOf(s, lo, off, hi);
  }

  /** `s` is whitespace up to `lo`, a sign from `lo` to `off`, a numeral
      from `off` to `hi` and whitespace from `hi` on. */
  predicate Layout(s: string, lo: nat, off: nat, hi: nat) {
    lo <= off < hi <= |s| && off <= lo + 1 &&
    (forall i :: 0 <= i < lo ==> IsSpace(s[i])) &&
    (forall i :: hi <= i < |s| ==> IsSpace(s[i])) &&
    (forall i :: lo <= i < off ==> s[i] == '+' || s[i] == '-') &&
    (forall i :: off <= i < hi ==> IsDigit(s[i]) || s[i] == '_') &&
    IsDigit(s[off]) && IsDigit(s[hi - 1]) &&
    (forall i, j :: off <= i < j <= i + 1 && j < hi ==> !(s[i] == '_' && s[j] == '_'))
  }

  lemma LayoutOf(s: string, lo: nat, off: nat, hi: nat)
    requires lo <= off < hi <= |s| && off <= lo + 1
    requires forall j :: 0 <= j < lo ==> IsSpace(s[j])
    requires forall j :: hi <= j < |s| ==> IsSpace(s[j])
    requires off == lo + 1 <==> (s[lo] == '+' || s[lo] == '-')
    requires IsNumeral(s[off..hi])
    ensures Layout(s, lo, off, hi)
  {
    var body := s[off..hi];
    assert forall i :: off <= i < hi ==> s[i] == body[i - off];
    forall i, j | off <= i < j <= i + 1 && j < hi ensures !(s[i] == '_' && s[j] == '_') {
      assert s[i] == body[i - off] && s[j] == body[j - off];
    }
  }

  lemma LayoutChars(s: string, lo: nat, off: nat, hi: nat)
    requires Layout(s, lo, off, hi)
    ensures forall i :: 0 <= i < |s| ==> IntChar(s[i])
    ensures HasDigit(s)
  {
    forall i | 0 <= i < |s| ensures IntChar(s[i]) {
    }
  }

  lemma LayoutSign(s: string, lo: nat, off: nat, hi: nat)
    requires Layout(s, lo, off, hi)
    ensures SignLeads(s)
    ensures '-' in s <==> s[lo] == '-'
  {
    assert forall i :: 0 <= i < |s| && (s[i] == '+' || s[i] == '-') ==> lo <= i < off;
    assert '-' in s ==> s[lo] == '-' by {
      if '-' in s {
        var i :| 0 <= i < |s| && s[i] == '-';
      }
    }
  }

  lemma LayoutUnderscores(s: string, lo: nat, off: nat, hi: nat)
    requires Layout(s, lo, off, hi)
    ensures UnderscoresJoinDigits(s)
  {
    forall i | 0 <= i < |s| && s[i] == '_'
      ensures off < i < hi - 1
    {
    }
    forall i, j | 0 <= i < j <= i + 1 && j < |s| && (s[i] == '_' || s[j] == '_')
      ensures (s[i] == '_' ==> IsDigit(s[j])) && (s[j] == '_' ==> IsDigit(s[i]))
    {
      assert off <= i && j < hi;
    }
  }

  lemma LayoutUnbroken(s: string, lo: nat, off: nat, hi: nat)
    requires Layout(s, lo, off, hi)
    ensures DigitsUnbroken(s)
  {
    forall i, j, k | 0 <= i < j < k < |s| && IsDigit(s[i]) && IsDigit(s[k])
      ensures !IsSpace(s[j])
    {
      assert off <= i && k < hi;
    }
  }

  /** Outside the numeral there are no digits. */
  lemma LayoutDigits(s: string, lo: nat, off: nat, hi: nat)
    requires Layout(s, lo, off, hi)
    ensures forall i :: 0 <= i < off ==> !IsDigit(s[i])
    ensures forall i :: hi <= i < |s| ==> !IsDigit(s[i])
    ensures forall i :: off <= i < hi ==> IsDigit(s[i]) || s[i] == '_'
  {
  }

  /** Only the numeral contributes digits, and they are its digits with the
      underscores dropped. */
  lemma DigitsSplit(s: string, off: nat, hi: nat)
    requires off <= hi <= |s|
    requires forall i :: 0 <= i < off ==> !IsDigit(s[i])
    requires forall i :: hi <= i < |s| ==> !IsDigit(s[i])
    requires forall i :: off <= i < hi ==> IsDigit(s[i]) || s[i] == '_'
    ensures Digits(s) == Replace(s[off..hi], '_', "")
  {
    DigitsDropFront(s, off);
    DigitsDropBack(s, off, hi);
    NumeralDigits(s, off, hi);
  }

  lemma {:induction false} DigitsDropFront(s: string, off: nat)
    requires off <= |s|
    requires forall i :: 0 <= i < off ==> !IsDigit(s[i])
    ensures Digits(s) == Digits(s[off..])
  {
    if off == 0 {
      assert s[0..] == s;
    } else {
      assert Digits(s) == Digits(s[1..]);
      assert forall i :: 0 <= i < off - 1 ==> s[1..][i] == s[i + 1];
      DigitsDropFront(s[1..], off - 1);
      assert s[1..][off - 1..] == s[off..];
    }
  }

  lemma DigitsDropBack(s: string, off: nat, hi: nat)
    requires off <= hi <= |s|
    requires forall i :: hi <= i < |s| ==> !IsDigit(s[i])
    ensures Digits(s[off..]) == Digits(s[off..hi])
  {
    var b := s[hi..];
    assert s[off..] == s[off..hi] + b;
    DigitsAppend(s[off..hi], b);
    assert forall i :: 0 <= i < |b| ==> b[i] == s[hi + i];
    DigitsNone(b);
  }

  lemma NumeralDigits(s: string, off: nat, hi: nat)
    requires off <= hi <= |s|
    requires forall i :: off <= i < hi ==> IsDigit(s[i]) || s[i] == '_'
    ensures Digits(s[off..hi]) == Replace(s[off..hi], '_', "")
  {
    var m := s[off..hi];
    assert forall i :: 0 <= i < |m| ==> m[i] == s[off + i];
    DigitsOfNumeral(m);
  }

  predicate IntShaped(s: string) {
    (forall i :: 0 <= i < |s| ==> IntChar(s[i])) &&
    HasDigit(s) && SignLeads(s) && UnderscoresJoinDigits(s) && DigitsUnbroken(s)
  }

  /** The converse of `ParseInt`'s contract: every string of that shape is
      accepted, so the shape is exactly what `int()` accepts. */
  lemma ShapedParses(s: string)
    requires IntShaped(s)
    ensures ParseInt(s).Some?
  {
    var d :| 0 <= d < |s| && IsDigit(s[d]);
    var lo, off := ShapedFront(s, d);
    var hi := ShapedBack(s, d);
    ShapedInside(s, off, hi);
    BodyNumeral(s, off, hi);
    NumeralParses(s, lo, off, hi);
  }

  lemma BodyNumeral(s: string, off: nat, hi: nat)
    requires off < hi <= |s| && IsDigit(s[off]) && IsDigit(s[hi - 1])
    requires forall i :: off <= i < hi ==> IsDigit(s[i]) || s[i] == '_'
    requires UnderscoresJoinDigits(s)
    ensures IsNumeral(s[off..hi])
  {
    var body := s[off..hi];
    forall i | 0 <= i < |body| ensures IsDigit(body[i]) || body[i] == '_' {
      assert body[i] == s[off + i];
    }
    forall i, j | 0 <= i < j <= i + 1 && j < |body| ensures !(body[i] == '_' && body[j] == '_') {
      assert body[i] == s[off + i] && body[j] == s[off + j];
    }
    assert body[0] == s[off] && body[|body| - 1] == s[hi - 1];
  }

  lemma NumeralParses(s: string, lo: nat, off: nat, hi: nat)
    requires lo == Leading(s) < |s| && hi == |s| - Trailing(s)
    requires off == if s[lo] == '+' || s[lo] == '-' then lo + 1 else lo
    requires off <= hi && IsNumeral(s[off..hi])
    ensures ParseInt(s).Some?
  {
  }

  /** Where the numeral of a well-shaped string starts, and where it ends. */
  lemma ShapedFront(s: string, d: nat) returns (lo: nat, off: nat)
    requires d < |s| && IsDigit(s[d])
    requires forall i :: 0 <= i < |s| ==> IntChar(s[i])
    requires SignLeads(s) && UnderscoresJoinDigits(s)
    ensures lo == Leading(s) <= d
    ensures off == if s[lo] == '+' || s[lo] == '-' then lo + 1 else lo
    ensures off <= d && IsDigit(s[off])
  {
    lo := Leading(s);
    assert lo <= d;
    if s[lo] == '+' || s[lo] == '-' {
      off := lo + 1;
    } else {
      off := lo;
      assert s[lo] != '_' by {
        if lo > 0 {
          assert IsSpace(s[lo - 1]);
        }
      }
    }
  }

  lemma ShapedBack(s: string, d: nat) returns (hi: nat)
    requires d < |s| && IsDigit(s[d])
    requires forall i :: 0 <= i < |s| ==> IntChar(s[i])
    requires SignLeads(s) && UnderscoresJoinDigits(s)
    ensures hi == |s| - Trailing(s) && d < hi && IsDigit(s[hi - 1])
  {
    hi := |s| - Trailing(s);
    assert d < hi;
    assert hi < |s| ==> IsSpace(s[hi]);
  }

  lemma ShapedInside(s: string, off: nat, hi: nat)
    requires IntShaped(s)
    requires off < hi <= |s| && IsDigit(s[off]) && IsDigit(s[hi - 1])
    ensures forall i :: off <= i < hi ==> IsDigit(s[i]) || s[i] == '_'
  {
    forall i | off <= i < hi ensures IsDigit(s[i]) || s[i] == '_' {
      assert !IsSpace(s[i]) by {
        assert i == off || i == hi - 1 || off < i < hi - 1;
      }
      assert s[i] != '+' && s[i] != '-' by {
        assert i == off || off < i;
      }
    }
  }

  lemma {:induction false} DigitsAppend(a: string, b: string)
    ensures Digits(a + b) == Digits(a) + Digits(b)
  {
    if a == [] {
      assert a + b == b;
    } else {
      assert (a + b)[0] == a[0] && (a + b)[1..] == a[1..] + b;
      DigitsAppend(a[1..], b);
    }
  }

  lemma {:induction false} DigitsNone(s: string)
    requires forall i :: 0 <= i < |s| ==> !IsDigit(s[i])
    ensures Digits(s) == []
  {
    if s != [] {
      DigitsNone(s[1..]);
    }
  }

  lemma {:induction false} DigitsOfNumeral(t: string)
    requires forall i :: 0 <= i < |t| ==> IsDigit(t[i]) || t[i] == '_'
    ensures Digits(t) == Replace(t, '_', "")
  {
    if t != [] {
      DigitsOfNumeral(t[1..]);
    }
  }

  /** One character `int()` cannot accept anywhere makes it raise. */
  lemma ParseIntRejects(s: string, i: nat)
    requires i < |s| && !IntChar(s[i])
    ensures ParseInt(s) == None
  {
  }

  /** `str(n)` for a natural number: its shortest decimal digits. */
  function ShowNat(n: nat): (d: string)
    ensures |d| > 0 && AllDigits(d) && DigitsValue(d) == n
  {
    if n < 10 then [DigitChar(n)]
    else
      var d := ShowNat(n / 10) + [DigitChar(n % 10)];
      assert d[..|d| - 1] == ShowNat(n / 10);
      d
  }

  /** `str(n)` for an integer. */
  function ShowInt(n: int): string {
    if n < 0 then "-" + ShowNat(-n) else ShowNat(n)
  }

  lemma {:induction false} ReplaceAbsent(s: string, pat: char, rep: string)
    requires pat !in s
    ensures Replace(s, pat, rep) == s
  {
    if s != [] {
      assert s[0] in s;
      ReplaceAbsent(s[1..], pat, rep);
    }
  }

  lemma {:induction false} ReplaceAppend(a: string, b: string, pat: char, rep: string)
    ensures Replace(a + b, pat, rep) == Replace(a, pat, rep) + Replace(b, pat, rep)
  {
    if a == [] {
      assert a + b == b;
    } else {
      assert (a + b)[0] == a[0] && (a + b)[1..] == a[1..] + b;
      ReplaceAppend(a[1..], b, pat, rep);
    }
  }

  lemma {:induction false} DigitsValueAppend(a: string, b: string)
    requires AllDigits(a) && AllDigits(b)
    ensures AllDigits(a + b)
    ensures DigitsValue(a + b) == DigitsValue(a) * Pow10(|b|) + DigitsValue(b)
  {
    if b == [] {
      assert a + b == a;
    } else {
      var b' := b[..|b| - 1];
      assert (a + b)[..|a + b| - 1] == a + b';
      assert (a + b)[|a + b| - 1] == b[|b| - 1];
      DigitsValueAppend(a, b');
      var x, p, y, d := DigitsValue(a), Pow10(|b'|), DigitsValue(b'), DigitValue(b[|b| - 1]);
      assert DigitsValue(a + b) == 10 * (x * p + y) + d;
      assert Pow10(|b|) == 10 * p && DigitsValue(b) == 10 * y + d;
      ShiftDigit(x, p, y, d);
    }
  }

  /** Appending one digit to both halves is appending it to the whole. */
  lemma ShiftDigit(x: int, p: int, y: int, d: int)
    ensures 10 * (x * p + y) + d == x * (10 * p) + (10 * y + d)
  {
    assert x * (10 * p) == 10 * (x * p);
  }

  lemma NumeralOfDigits(d: string)
    requires |d| > 0 && AllDigits(d)
    ensures IsNumeral(d) && NumeralValue(d) == DigitsValue(d)
  {
    assert '_' !in d by {
      forall i | 0 <= i < |d| ensures d[i] != '_' { }
    }
    ReplaceAbsent(d, '_', "");
  }

  /** A string of plain digits is its own numeral, with its own value. */
  lemma ParseDigits(d: string)
    requires |d| > 0 && AllDigits(d)
    ensures ParseInt(d) == Some(DigitsValue(d))
  {
    NumeralOfDigits(d);
    ParseUnpadded(d, 0);
    assert d[0..] == d;
  }

  /** A string with no whitespace at either end, an optional sign of width
      `off` and then a numeral: `int()` takes the numeral's value, negated
      under a minus sign. */
  lemma ParseUnpadded(s: string, off: nat)
    requires off < |s| && !IsSpace(s[0]) && !IsSpace(s[|s| - 1])
    requires off == (if s[0] == '+' || s[0] == '-' then 1 else 0)
    requires IsNumeral(s[off..])
    ensures ParseInt(s) == Some(if s[0] == '-' then -(NumeralValue(s[off..]) as int) else NumeralValue(s[off..]))
  {
    assert Leading(s) == 0 && Trailing(s) == 0;
    assert s[off..|s|] == s[off..];
  }

  /** `int(str(n)) == n`: the parser accepts what Python prints for an
      integer, with its value. */
  lemma ParseShowInt(n: int)
    ensures ParseInt(ShowInt(n)) == Some(n)
  {
    if n < 0 {
      var d := ShowNat(-n);
      var s := "-" + d;
      assert s[|s| - 1] == d[|d| - 1] && s[1..] == d;
      NumeralOfDigits(d);
      ParseUnpadded(s, 1);
    } else {
      ParseDigits(ShowNat(n));
    }
  }
}
