/**
 * The few JavaScript built-ins the itinerary code relies on, stated over
 * Dafny values: `s.split(sep)[0]`, `parseInt(s, 10)` (with `NaN` as `None`),
 * the comparison operators on numbers that may be `NaN`, and
 * `Array.from(new Set(xs))`.
 */
module JsBuiltins {
  import opened Wrappers

  // ---------------------------------------------------------------------
  // s.split(sep)[0]
  // ---------------------------------------------------------------------

  /** The first field of `s.split(sep)`: the text before the first `sep`, or all of `s`. */
  function SplitFirst(s: string, sep: char): (field: string)
    ensures field <= s
    ensures sep !in field
    ensures |field| < |s| ==> s[|field|] == sep
  {
    if s == [] || s[0] == sep then [] else [s[0]] + SplitFirst(s[1..], sep)
  }

  /** Whatever follows the first separator never reaches the first field. */
  lemma SplitFirstOfJoin(head: string, sep: char, rest: string)
    requires sep !in head
    ensures SplitFirst(head + [sep] + rest, sep) == head
  {
    var s := head + [sep] + rest;
    var field := SplitFirst(s, sep);
    assert forall k :: 0 <= k < |head| ==> s[k] == head[k];
    assert s[|head|] == sep;
    assert |field| == |head|;
  }

  // ---------------------------------------------------------------------
  // parseInt(s, 10)
  // ---------------------------------------------------------------------

  /** The characters ECMAScript's `StrWhiteSpaceChar` admits: white space and line terminators. */
  predicate IsWhiteSpace(c: char) {
    c == '\t' || c == '\n' || c == '\U{B}' || c == '\U{C}' || c == '\r' || c == ' '
    || c == '\U{A0}' || c == '\U{1680}' || ('\U{2000}' <= c <= '\U{200A}')
    || c == '\U{2028}' || c == '\U{2029}' || c == '\U{202F}' || c == '\U{205F}'
    || c == '\U{3000}' || c == '\U{FEFF}'
  }

  predicate IsDigit(c: char) {
    '0' <= c <= '9'
  }

  predicate AllDigits(s: string) {
    forall i :: 0 <= i < |s| ==> IsDigit(s[i])
  }

  /** `s` without its leading white space. */
  function TrimStart(s: string): (t: string)
    ensures |t| <= |s| && t == s[|s| - |t|..]
    ensures forall i :: 0 <= i < |s| - |t| ==> IsWhiteSpace(s[i])
    ensures t == [] || !IsWhiteSpace(t[0])
  {
    if s != [] && IsWhiteSpace(s[0]) then TrimStart(s[1..]) else s
  }

  /** The longest prefix of `s` made of decimal digits. */
  function LeadingDigits(s: string): (ds: string)
    ensures ds <= s
    ensures AllDigits(ds)
    ensures |ds| < |s| ==> !IsDigit(s[|ds|])
  {
    if s != [] && IsDigit(s[0]) then [s[0]] + LeadingDigits(s[1..]) else []
  }

  function DigitValue(c: char): nat
    requires IsDigit(c)
  {
    c as int - '0' as int
  }

  function DigitChar(d: nat): (c: char)
    requires d < 10
    ensures IsDigit(c) && DigitValue(c) == d
  {
    ('0' as int + d) as char
  }

  /** The number a string of decimal digits denotes, most significant digit first. */
  function DigitsValue(ds: string): nat
    requires AllDigits(ds)
  {
    if ds == [] then 0 else 10 * DigitsValue(ds[..|ds| - 1]) + DigitValue(ds[|ds| - 1])
  }

  /** The text after an optional leading `+` or `-`. */
  function Unsigned(t: string): string {
    if t != [] && (t[0] == '+' || t[0] == '-') then t[1..] else t
  }

  /**
   * `parseInt(s, 10)`: skip leading white space, take one optional sign, then
   * the longest run of decimal digits; `NaN` (here `None`) when there is no
   * digit. Anything after the digits is ignored.
   */
  function ParseInt(s: string): (n: Option<int>)
    ensures n.None? <==> LeadingDigits(Unsigned(TrimStart(s))) == []
  {
    var t := TrimStart(s);
    var digits := LeadingDigits(Unsigned(t));
    if digits == [] then None else Some(SignedValue(t, digits))
  }

  /** The value of `digits`, negated when the text `t` they were read from starts with `-`. */
  function SignedValue(t: string, digits: string): int
    requires AllDigits(digits)
  {
    var magnitude: int := DigitsValue(digits);
    if t != [] && t[0] == '-' then -magnitude else magnitude
  }

  /** The shortest decimal numeral of `n`, as `String(n)` writes it. */
  function DecimalString(n: nat): (s: string)
    ensures s != [] && AllDigits(s)
  {
    if n < 10 then [DigitChar(n)] else DecimalString(n / 10) + [DigitChar(n % 10)]
  }

  lemma {:induction false} DecimalStringValue(n: nat)
    ensures DigitsValue(DecimalString(n)) == n
  {
    if n >= 10 {
      var s := DecimalString(n);
      DecimalStringValue(n / 10);
      assert s[..|s| - 1] == DecimalString(n / 10);
    }
  }

  lemma {:induction false} LeadingDigitsOfJoin(ds: string, rest: string)
    requires AllDigits(ds)
    requires rest == [] || !IsDigit(rest[0])
    ensures LeadingDigits(ds + rest) == ds
  {
    if ds != [] {
      assert (ds + rest)[1..] == ds[1..] + rest;
      LeadingDigitsOfJoin(ds[1..], rest);
    }
  }

  /**
   * What `parseInt` reads back: white space, an optional sign, a numeral and
   * any text that does not start with a digit give the numeral's value.
   */
  lemma {:induction false} ParseIntOfNumeral(ws: string, negative: bool, n: nat, rest: string)
    requires forall i :: 0 <= i < |ws| ==> IsWhiteSpace(ws[i])
    requires rest == [] || !IsDigit(rest[0])
    ensures ParseInt(ws + (if negative then "-" else "") + DecimalString(n) + rest)
            == Some(if negative then -(n as int) else n)
  {
    var numeral := DecimalString(n);
    var sign := if negative then "-" else "";
    var body := sign + (numeral + rest);
    assert ws + sign + numeral + rest == ws + body;
    assert ParseInt(ws + body) == Some(SignedValue(body, numeral)) by {
      SignedNumeral(sign, numeral, rest);
      ParseIntAfterWhiteSpace(ws, body, numeral);
    }
    assert SignedValue(body, numeral) == if negative then -(n as int) else n by {
      SignedNumeral(sign, numeral, rest);
      DecimalStringValue(n);
    }
  }

  /** A sign, a numeral and text not starting with a digit: what `parseInt` reads from it. */
  lemma {:induction false} SignedNumeral(sign: string, numeral: string, rest: string)
    requires sign == "-" || sign == ""
    requires numeral != [] && AllDigits(numeral)
    requires rest == [] || !IsDigit(rest[0])
    ensures var body := sign + (numeral + rest);
      && body != [] && !IsWhiteSpace(body[0])
      && LeadingDigits(Unsigned(body)) == numeral
      && SignedValue(body, numeral) == if sign == "-" then -(DigitsValue(numeral) as int) else DigitsValue(numeral)
  {
    StripSign(sign, numeral + rest);
    LeadingDigitsOfJoin(numeral, rest);
  }

  /** White space in front of a text that does not start with white space does not change what `parseInt` reads. */
  lemma {:induction false} ParseIntAfterWhiteSpace(ws: string, body: string, digits: string)
    requires forall i :: 0 <= i < |ws| ==> IsWhiteSpace(ws[i])
    requires body != [] && !IsWhiteSpace(body[0])
    requires LeadingDigits(Unsigned(body)) == digits && digits != []
    ensures ParseInt(ws + body) == Some(SignedValue(body, digits))
  {
    TrimStartOfJoin(ws, body);
    ParseIntOf(ws + body, body, digits);
  }

  lemma {:induction false} StripSign(sign: string, unsigned: string)
    requires sign == "-" || sign == ""
    requires unsigned != [] && IsDigit(unsigned[0])
    ensures var body := sign + unsigned;
      body != [] && !IsWhiteSpace(body[0]) && (body[0] == '-' <==> sign == "-")
      && Unsigned(body) == unsigned
  {
    var body := sign + unsigned;
    if sign == "-" {
      assert body[0] == '-';
      assert body[1..] == unsigned;
    } else {
      assert body == unsigned;
      var c := body[0];
      assert '0' <= c <= '9';
      assert c != '-' && c != '+' && !IsWhiteSpace(c);
    }
  }

  /** A bare numeral is read back as its value. */
  lemma {:induction false} ParseIntOfDigits(ds: string)
    requires ds != [] && AllDigits(ds)
    ensures ParseInt(ds) == Some(DigitsValue(ds))
  {
    var c := ds[0];
    assert '0' <= c <= '9';
    assert c != '-' && c != '+' && !IsWhiteSpace(c);
    assert TrimStart(ds) == ds;
    assert Unsigned(ds) == ds;
    assert LeadingDigits(ds) == ds by {
      LeadingDigitsOfJoin(ds, "");
      assert ds + "" == ds;
    }
    ParseIntOf(ds, ds, ds);
  }

  /** `ParseInt` once white space, sign and digits have been located. */
  lemma {:induction false} ParseIntOf(s: string, t: string, digits: string)
    requires TrimStart(s) == t
    requires LeadingDigits(Unsigned(t)) == digits && digits != []
    ensures ParseInt(s) == Some(SignedValue(t, digits))
  {
  }

  lemma {:induction false} TrimStartOfJoin(ws: string, body: string)
    requires forall i :: 0 <= i < |ws| ==> IsWhiteSpace(ws[i])
    requires body == [] || !IsWhiteSpace(body[0])
    ensures TrimStart(ws + body) == body
  {
    if ws != [] {
      assert (ws + body)[1..] == ws[1..] + body;
      TrimStartOfJoin(ws[1..], body);
    }
  }

  // ---------------------------------------------------------------------
  // ===, >= and <= on numbers that may be NaN
  // ---------------------------------------------------------------------

  /** `x === y` on numbers: `NaN` equals nothing, not even itself. */
  predicate NumEq(x: Option<int>, y: Option<int>) {
    x.Some? && y.Some? && x.value == y.value
  }

  /** `x <= y` on numbers: false whenever either side is `NaN`. */
  predicate NumLe(x: Option<int>, y: Option<int>) {
    x.Some? && y.Some? && x.value <= y.value
  }

  // ---------------------------------------------------------------------
  // Array.from(new Set(xs))
  // ---------------------------------------------------------------------

  predicate NoDuplicates<T(==)>(xs: seq<T>) {
    forall i, j :: 0 <= i < j < |xs| ==> xs[i] != xs[j]
  }

  /** The position of the first occurrence of `x` in `xs`. */
  function FirstIndex<T(==)>(xs: seq<T>, x: T): (k: nat)
    requires x in xs
    ensures k < |xs| && xs[k] == x
    ensures forall i :: 0 <= i < k ==> xs[i] != x
  {
    if xs[0] == x then 0 else 1 + FirstIndex(xs[1..], x)
  }

  /**
   * `Array.from(new Set(xs))`: a `Set` keeps insertion order and ignores an
   * element it already holds, so each element stays at its first occurrence.
   */
  function Dedup<T(==, !new)>(xs: seq<T>): (r: seq<T>)
    ensures NoDuplicates(r)
    ensures forall x :: x in r <==> x in xs
  {
    if xs == [] then []
    else
      var seen := Dedup(xs[..|xs| - 1]);
      var x := xs[|xs| - 1];
      if x in seen then seen else seen + [x]
  }

  lemma {:induction false} FirstIndexOfExtension<T>(xs: seq<T>, ys: seq<T>, x: T)
    requires x in xs
    ensures x in xs + ys && FirstIndex(xs + ys, x) == FirstIndex(xs, x)
  {
    if xs[0] != x {
      assert (xs + ys)[1..] == xs[1..] + ys;
      FirstIndexOfExtension(xs[1..], ys, x);
    }
  }

  /** The first occurrence of an element missing from `xs` and appended after it is the appended position. */
  lemma FirstIndexOfAppended<T>(xs: seq<T>, x: T)
    requires x !in xs
    ensures x in xs + [x] && FirstIndex(xs + [x], x) == |xs|
  {
  }

  /** The de-duplicated list lists elements in the order of their first occurrences. */
  lemma {:induction false} DedupKeepsFirstOccurrenceOrder<T(!new)>(xs: seq<T>)
    ensures forall i, j :: 0 <= i < j < |Dedup(xs)| ==>
      Dedup(xs)[i] in xs && Dedup(xs)[j] in xs &&
      FirstIndex(xs, Dedup(xs)[i]) < FirstIndex(xs, Dedup(xs)[j])
  {
    if xs != [] {
      var init := xs[..|xs| - 1];
      var x := xs[|xs| - 1];
      var seen := Dedup(init);
      var r := Dedup(xs);
      DedupKeepsFirstOccurrenceOrder(init);
      assert xs == init + [x];
      forall i, j | 0 <= i < j < |r|
        ensures r[i] in xs && r[j] in xs && FirstIndex(xs, r[i]) < FirstIndex(xs, r[j])
      {
        assert r[i] == seen[i] && seen[i] in init;
        FirstIndexOfExtension(init, [x], r[i]);
        if j < |seen| {
          assert r[j] == seen[j] && seen[j] in init;
          FirstIndexOfExtension(init, [x], r[j]);
        } else {
          assert r[j] == x && x !in init;
          FirstIndexOfAppended(init, x);
        }
      }
    } else {
      assert Dedup(xs) == [];
    }
  }
}
