/** `estimate_margin` (GrandExchangeScript.py:37-49 and :157-169): the
    current price is read from the detail payload, a price string is turned
    into an integer by a fixed chain of replacements, and buy, sell and
    margin are derived from it. */
module Prices {
  import opened Wrappers
  import opened Json
  import opened Text

  /** The two copies of the normaliser: the first (:40) knows `k` and `m`,
      the second (:160) also rewrites `b`, after the point is removed. */
  datatype Variant = NoBillions | Billions

  /** The replacement chain, in the order the script applies it: what comes
      out holds no separator and no suffix the variant knows, only zeros and
      characters of the input. */
  function Normalise(v: Variant, s: string): (r: string)
    ensures forall c :: c in r ==>
              c == '0' || (c in s && c != ',' && c != '.' && c != 'k' && c != 'm' && !(v == Billions && c == 'b'))
  {
    var t := Replace(Replace(Replace(Replace(s, ',', ""), 'k', "000"), 'm', "000000"), '.', "");
    if v == Billions then Replace(t, 'b', "000000000") else t
  }

  /** `int(...)` of the normalised string; `None` stands for ValueError. */
  function ParsePrice(v: Variant, s: string): Option<int> {
    ParseInt(Normalise(v, s))
  }

  /** What a single character of a price string turns into. */
  function Rewrite(v: Variant, c: char): string {
    if c == ',' || c == '.' then ""
    else if c == 'k' then "000"
    else if c == 'm' then "000000"
    else if c == 'b' && v == Billions then "000000000"
    else [c]
  }

  /** A reference reading of the chain: each character rewritten on its own. */
  function Expand(v: Variant, s: string): string {
    if s == [] then [] else Rewrite(v, s[0]) + Expand(v, s[1..])
  }

  /** The factor a suffix letter stands for. */
  function Multiplier(c: char): nat {
    if c == 'k' then 1000 else if c == 'm' then 1000000 else 1000000000
  }

  lemma NormaliseAppend(v: Variant, a: string, b: string)
    ensures Normalise(v, a + b) == Normalise(v, a) + Normalise(v, b)
  {
    ReplaceAppend(a, b, ',', "");
    var a1, b1 := Replace(a, ',', ""), Replace(b, ',', "");
    ReplaceAppend(a1, b1, 'k', "000");
    var a2, b2 := Replace(a1, 'k', "000"), Replace(b1, 'k', "000");
    ReplaceAppend(a2, b2, 'm', "000000");
    var a3, b3 := Replace(a2, 'm', "000000"), Replace(b2, 'm', "000000");
    ReplaceAppend(a3, b3, '.', "");
    var a4, b4 := Replace(a3, '.', ""), Replace(b3, '.', "");
    ReplaceAppend(a4, b4, 'b', "000000000");
  }

  lemma ReplaceOne(c: char, pat: char, rep: string)
    ensures Replace([c], pat, rep) == if c == pat then rep else [c]
  {
    assert [c][1..] == [];
  }

  lemma ReplaceZeros(z: string, pat: char, rep: string)
    requires forall i :: 0 <= i < |z| ==> z[i] == '0'
    requires pat != '0'
    ensures Replace(z, pat, rep) == z
  {
    assert pat !in z;
    ReplaceAbsent(z, pat, rep);
  }

  lemma NormaliseChar(v: Variant, c: char)
    ensures Normalise(v, [c]) == Rewrite(v, c)
  {
    ReplaceOne(c, ',', "");
    if c == ',' || c == '.' {
      if c == '.' {
        ReplaceOne(c, 'k', "000");
        ReplaceOne(c, 'm', "000000");
        ReplaceOne(c, '.', "");
      }
    } else if c == 'k' {
      ReplaceOne(c, 'k', "000");
      ReplaceZeros("000", 'm', "000000");
      ReplaceZeros("000", '.', "");
      ReplaceZeros("000", 'b', "000000000");
    } else if c == 'm' {
      ReplaceOne(c, 'k', "000");
      ReplaceOne(c, 'm', "000000");
      ReplaceZeros("000000", '.', "");
      ReplaceZeros("000000", 'b', "000000000");
    } else {
      ReplaceOne(c, 'k', "000");
      ReplaceOne(c, 'm', "000000");
      ReplaceOne(c, '.', "");
      ReplaceOne(c, 'b', "000000000");
    }
  }

  /** The chain of replacements is the same as rewriting every character on
      its own: no replacement produces a character a later one rewrites. */
  lemma {:induction false} NormaliseCharwise(v: Variant, s: string)
    ensures Normalise(v, s) == Expand(v, s)
  {
    if s == [] {
    } else {
      assert s == [s[0]] + s[1..];
      NormaliseAppend(v, [s[0]], s[1..]);
      NormaliseChar(v, s[0]);
      NormaliseCharwise(v, s[1..]);
    }
  }

  lemma {:induction false} ExpandAppend(v: Variant, a: string, b: string)
    ensures Expand(v, a + b) == Expand(v, a) + Expand(v, b)
  {
    if a != [] {
      assert (a + b)[0] == a[0] && (a + b)[1..] == a[1..] + b;
      ExpandAppend(v, a[1..], b);
    } else {
      assert a + b == b;
    }
  }

  lemma {:induction false} ExpandDigits(v: Variant, d: string)
    requires AllDigits(d)
    ensures Expand(v, d) == d
  {
    if d != [] {
      assert IsDigit(d[0]);
      ExpandDigits(v, d[1..]);
    }
  }

  lemma {:induction false} ExpandMarkers(v: Variant, s: string)
    ensures var t := Expand(v, s);
            ',' !in t && '.' !in t && 'k' !in t && 'm' !in t &&
            (v == Billions ==> 'b' !in t)
    ensures forall x :: x !in ",.km0" && !(x == 'b' && v == Billions) ==>
                        (x in Expand(v, s) <==> x in s)
  {
    if s != [] {
      ExpandMarkers(v, s[1..]);
      var r, t := Rewrite(v, s[0]), Expand(v, s[1..]);
      assert Expand(v, s) == r + t;
      assert forall x :: x in s <==> x == s[0] || x in s[1..];
      assert forall x :: x in r + t <==> x in r || x in t;
      assert forall x :: x in r ==> x == '0' || x == s[0];
      assert s[0] !in ",.km" && !(s[0] == 'b' && v == Billions) ==> s[0] in r;
    }
  }

  /** After normalisation no separator and no known suffix is left; a
      character the normaliser has no rule for survives unchanged. */
  lemma NormaliseLeavesNoMarkers(v: Variant, s: string)
    ensures var t := Normalise(v, s);
            ',' !in t && '.' !in t && 'k' !in t && 'm' !in t &&
            (v == Billions ==> 'b' !in t)
    ensures forall x :: x !in ",.km0" && !(x == 'b' && v == Billions) ==>
                        (x in Normalise(v, s) <==> x in s)
  {
    NormaliseCharwise(v, s);
    ExpandMarkers(v, s);
  }

  /** In the first variant a `b` suffix is never rewritten, so `int()`
      always rejects a price string that contains one. */
  lemma BillionsRejectedByFirstVariant(s: string)
    requires 'b' in s
    ensures ParsePrice(NoBillions, s) == None
  {
    var t := Normalise(NoBillions, s);
    NormaliseLeavesNoMarkers(NoBillions, s);
    var i :| 0 <= i < |t| && t[i] == 'b';
    ParseIntRejects(t, i);
  }

  /** The two variants differ only on strings that contain `b`. */
  lemma {:induction false} VariantsAgreeWithoutB(s: string)
    requires 'b' !in s
    ensures Normalise(Billions, s) == Normalise(NoBillions, s)
    ensures ParsePrice(Billions, s) == ParsePrice(NoBillions, s)
  {
    NormaliseCharwise(Billions, s);
    NormaliseCharwise(NoBillions, s);
    ExpandAgree(s);
  }

  lemma {:induction false} ExpandAgree(s: string)
    requires 'b' !in s
    ensures Expand(Billions, s) == Expand(NoBillions, s)
  {
    if s != [] {
      assert s[0] in s;
      ExpandAgree(s[1..]);
    }
  }

  lemma ZerosValue(n: nat) returns (z: string)
    ensures |z| == n && AllDigits(z) && DigitsValue(z) == 0
    ensures forall i :: 0 <= i < |z| ==> z[i] == '0'
  {
    z := seq(n, i => '0');
    ZerosValueOf(z);
  }

  lemma {:induction false} ZerosValueOf(z: string)
    requires forall i :: 0 <= i < |z| ==> z[i] == '0'
    ensures AllDigits(z) && DigitsValue(z) == 0
  {
    if z != [] {
      ZerosValueOf(z[..|z| - 1]);
    }
  }

  lemma ExpandSuffix(v: Variant, d: string, c: char)
    requires AllDigits(d)
    ensures Normalise(v, d + [c]) == d + Rewrite(v, c)
  {
    NormaliseCharwise(v, d + [c]);
    ExpandAppend(v, d, [c]);
    ExpandDigits(v, d);
    assert [c][1..] == [];
  }

  lemma SuffixValue(d: string, z: string, c: char)
    requires AllDigits(d)
    requires z == "000" || z == "000000" || z == "000000000"
    requires c == 'k' || c == 'm' || c == 'b'
    requires |z| == 3 <==> c == 'k'
    requires |z| == 6 <==> c == 'm'
    ensures AllDigits(d + z) && DigitsValue(d + z) == DigitsValue(d) * Multiplier(c)
  {
    assert Pow10(3) == 1000 by {
      assert Pow10(1) == 10 && Pow10(2) == 100;
    }
    assert Pow10(6) == 1000000 by {
      assert Pow10(4) == 10000 && Pow10(5) == 100000;
    }
    assert Pow10(9) == 1000000000 by {
      assert Pow10(7) == 10000000 && Pow10(8) == 100000000;
    }
    ZerosValueOf(z);
    DigitsValueAppend(d, z);
  }

  /** Digits followed by a suffix the variant knows are scaled by it:
      `"12k"` is 12000. */
  lemma SuffixScales(v: Variant, d: string, c: char)
    requires |d| > 0 && AllDigits(d)
    requires c == 'k' || c == 'm' || (c == 'b' && v == Billions)
    ensures ParsePrice(v, d + [c]) == Some(DigitsValue(d) * Multiplier(c))
  {
    var z := Rewrite(v, c);
    ExpandSuffix(v, d, c);
    SuffixValue(d, z, c);
    ParseDigits(d + z);
  }

  /** Thousands separators are dropped: `"1,234"` is 1234. */
  lemma CommaDropped(v: Variant, a: string, b: string)
    requires |a| > 0 && AllDigits(a) && AllDigits(b)
    ensures ParsePrice(v, a + "," + b) == Some(DigitsValue(a + b))
  {
    assert Normalise(v, a + "," + b) == a + b by {
      NormaliseCharwise(v, a + "," + b);
      ExpandAppend(v, a + ",", b);
      ExpandAppend(v, a, ",");
      ExpandDigits(v, a);
      ExpandDigits(v, b);
      assert Expand(v, ",") == "";
      assert a + "" == a;
    }
    DigitsValueAppend(a, b);
    ParseDigits(a + b);
  }

  lemma ExpandPoint(v: Variant, a: string, b: string, c: char)
    requires AllDigits(a) && AllDigits(b)
    ensures Normalise(v, a + "." + b + [c]) == (a + b) + Rewrite(v, c)
  {
    NormaliseCharwise(v, a + "." + b + [c]);
    ExpandAppend(v, a + "." + b, [c]);
    ExpandAppend(v, a + ".", b);
    ExpandAppend(v, a, ".");
    ExpandDigits(v, a);
    ExpandDigits(v, b);
    assert Expand(v, ".") == "";
    assert [c][1..] == [];
    assert a + "" == a;
  }

  /** The point is deleted as a character and never read as a decimal point,
      so the digits on both sides of it are joined before the suffix scales
      them: `"2.5m"` is 25000000. */
  lemma PointJoinsDigits(v: Variant, a: string, b: string, c: char)
    requires |a| > 0 && AllDigits(a) && AllDigits(b)
    requires c == 'k' || c == 'm' || (c == 'b' && v == Billions)
    ensures AllDigits(a + b)
    ensures ParsePrice(v, a + "." + b + [c]) == Some(DigitsValue(a + b) * Multiplier(c))
  {
    var z := Rewrite(v, c);
    ExpandPoint(v, a, b, c);
    DigitsValueAppend(a, b);
    SuffixValue(a + b, z, c);
    ParseDigits((a + b) + z);
  }

  lemma CommaExample(s: string)
    requires s == "1,234"
    ensures ParsePrice(NoBillions, s) == Some(1234)
  {
    var a, b := "1", "234";
    CommaPieces(s, a, b);
    CommaDropped(NoBillions, a, b);
    CommaDigits(a, b);
  }

  lemma CommaPieces(s: string, a: string, b: string)
    requires s == "1,234" && a == "1" && b == "234"
    ensures s == a + "," + b && |a| > 0 && AllDigits(a) && AllDigits(b)
  {
  }

  lemma CommaDigits(a: string, b: string)
    requires a == "1" && b == "234"
    ensures AllDigits(a + b) && DigitsValue(a + b) == 1234
  {
    var d := a + b;
    assert DigitsValue(d[..1]) == 1;
    assert DigitsValue(d[..2]) == 12 by {
      assert d[..2][..1] == d[..1];
    }
    assert DigitsValue(d[..3]) == 123 by {
      assert d[..3][..2] == d[..2];
    }
    assert d[..|d| - 1] == d[..3];
  }

  lemma KiloExample(s: string)
    requires s == "12k"
    ensures ParsePrice(NoBillions, s) == Some(12000)
  {
    var d := "12";
    SuffixPieces(s, d, 'k');
    SuffixScales(NoBillions, d, 'k');
    assert DigitsValue(d) == 12 by {
      assert d[..1] == "1";
    }
  }

  lemma SuffixPieces(s: string, d: string, c: char)
    requires |s| == |d| + 1 && s[..|d|] == d && s[|d|] == c
    ensures s == d + [c]
  {
  }

  /** `"2.5m"` is 25000000 in both variants. */
  lemma PointExample(s: string)
    requires s == "2.5m"
    ensures ParsePrice(NoBillions, s) == Some(25000000)
    ensures ParsePrice(Billions, s) == Some(25000000)
  {
    PointVariantExample(NoBillions, s);
    PointVariantExample(Billions, s);
  }

  lemma PointVariantExample(v: Variant, s: string)
    requires s == "2.5m"
    ensures ParsePrice(v, s) == Some(25000000)
  {
    var a, b := "2", "5";
    PointPieces(s, a, b);
    PointJoinsDigits(v, a, b, 'm');
    PointDigits(a, b);
  }

  lemma PointPieces(s: string, a: string, b: string)
    requires s == "2.5m" && a == "2" && b == "5"
    ensures s == a + "." + b + ['m'] && |a| > 0 && AllDigits(a) && AllDigits(b)
  {
  }

  lemma PointDigits(a: string, b: string)
    requires a == "2" && b == "5"
    ensures AllDigits(a + b) && DigitsValue(a + b) == 25
  {
    var d := a + b;
    assert d[..|d| - 1] == a && d[|d| - 1] == '5';
    assert DigitsValue(a) == 2 by {
      assert a[..|a| - 1] == [];
    }
  }

  /** `"3b"` fails in the first variant and is three billion in the second. */
  lemma BillionsExample(s: string)
    requires s == "3b"
    ensures ParsePrice(NoBillions, s) == None
    ensures ParsePrice(Billions, s) == Some(3000000000)
  {
    BillionsFirstExample(s);
    BillionsSecondExample(s);
  }

  lemma BillionsFirstExample(s: string)
    requires s == "3b"
    ensures ParsePrice(NoBillions, s) == None
  {
    assert s[1] == 'b';
    BillionsRejectedByFirstVariant(s);
  }

  lemma BillionsSecondExample(s: string)
    requires s == "3b"
    ensures ParsePrice(Billions, s) == Some(3000000000)
  {
    var d := "3";
    SuffixPieces(s, d, 'b');
    SuffixScales(Billions, d, 'b');
    assert DigitsValue(d) == 3;
  }

  /** The price as the script holds it before the arithmetic: a string goes
      through the normaliser and `int()`, anything else is used as it is; a
      bool behaves as 0 or 1, other values make the multiplication raise. */
  function CurrentPrice(v: Variant, price: Json): (r: Outcome<int>)
    ensures price.JInt? ==> r == Ok(price.i)
    ensures price.JString? ==> (r.Ok? <==> ParsePrice(v, price.str).Some?)
    ensures price.JString? && r.Ok? ==> ParsePrice(v, price.str) == Some(r.value)
    ensures r.Err? ==> (r.error == ValueError <==> price.JString?)
    ensures price.JBool? ==> r == Ok(if price.b then 1 else 0)
    ensures price.JNull? || price.JArray? || price.JObject? ==> r == Err(TypeError)
  {
    match price
    case JString(s) =>
      (match ParsePrice(v, s)
       case Some(n) => Ok(n)
       case None => Err(ValueError))
    case JInt(n) => Ok(n)
    case JBool(b) => Ok(if b then 1 else 0)
    case _ => Err(TypeError)
  }

  /** `item_data['current']['price']`, made an integer. */
  function PriceOf(v: Variant, item: Json): (r: Outcome<int>)
    ensures Subscript(item, "current").Err? ==> r == Err(Subscript(item, "current").error)
    ensures Subscript(item, "current").Ok? ==>
              var current := Subscript(item, "current").value;
              (Subscript(current, "price").Err? ==> r == Err(Subscript(current, "price").error)) &&
              (Subscript(current, "price").Ok? ==> r == CurrentPrice(v, Subscript(current, "price").value))
  {
    var current :- Subscript(item, "current");
    var price :- Subscript(current, "price");
    CurrentPrice(v, price)
  }

  datatype Estimate = Estimate(buy: int, sell: int, margin: int)

  /** `int(x / d)` for a positive `d`: the quotient truncated toward zero. */
  function TruncDiv(x: int, d: int): int
    requires d > 0
  {
    if x >= 0 then x / d else -((-x) / d)
  }

  /** Buy at 95% and sell at 105% of the current price, each truncated
      toward zero as `int()` does; the margin is their difference, about a
      tenth of the price, and positive exactly when the price is. */
  function EstimateAt(n: int): (e: Estimate)
    ensures e.margin == e.sell - e.buy
    ensures 0 <= n ==> 0 <= e.buy <= n <= e.sell
    ensures n <= 0 ==> e.sell <= n <= e.buy <= 0
    ensures e.margin > 0 <==> n > 0
    ensures n - 10 < 10 * e.margin < n + 10
  {
    var buy := TruncDiv(n * 95, 100);
    var sell := TruncDiv(n * 105, 100);
    Estimate(buy, sell, sell - buy)
  }

  /** `estimate_margin(item_data)`. */
  function EstimateMargin(v: Variant, item: Json): (r: Outcome<Estimate>)
    ensures r.Ok? <==> PriceOf(v, item).Ok?
    ensures r.Ok? ==> r.value.margin == r.value.sell - r.value.buy
    ensures r.Ok? ==> (r.value.margin > 0 <==> PriceOf(v, item).value > 0)
    ensures r.Err? ==> r.error == PriceOf(v, item).error
  {
    var n :- PriceOf(v, item);
    Ok(EstimateAt(n))
  }

  /** The estimate is the one `EstimateAt` gives for the current price, so
      every bound proved there holds of it: buy and sell bracket the price
      and ten times the margin is within 10 of it. */
  lemma EstimateMarginAt(v: Variant, item: Json)
    requires EstimateMargin(v, item).Ok?
    ensures EstimateMargin(v, item).value == EstimateAt(PriceOf(v, item).value)
    ensures var n, e := PriceOf(v, item).value, EstimateMargin(v, item).value;
            (0 <= n ==> 0 <= e.buy <= n <= e.sell) && (n <= 0 ==> e.sell <= n <= e.buy <= 0) &&
            n - 10 < 10 * e.margin < n + 10
  {
  }
}
