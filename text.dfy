/**
  The small pieces of Rust's standard formatting the log and display lines rely
  on: `bool` and integer `Display`, and the lower-casing `get_method` applies.
 */
module Text {

  /** `bool` rendered by `{}`. */
  function BoolText(b: bool): (s: string)
    ensures s == "true" || s == "false"
    ensures s == "true" <==> b
  {
    if b then "true" else "false"
  }

  /** Lower-case of one character, for the ASCII letters. */
  function LowerChar(c: char): (r: char)
    ensures 'A' <= c <= 'Z' ==> 'a' <= r <= 'z' && r as int - c as int == 'a' as int - 'A' as int
    ensures !('A' <= c <= 'Z') ==> r == c
  {
    if 'A' <= c <= 'Z' then (c as int - 'A' as int + 'a' as int) as char else c
  }

  /** `str::to_lowercase`, restricted to ASCII letters. */
  function Lower(s: string): (r: string)
    ensures |r| == |s|
    ensures forall i :: 0 <= i < |s| ==> r[i] == LowerChar(s[i])
    decreases |s|
  {
    if s == [] then [] else Lower(s[..|s| - 1]) + [LowerChar(s[|s| - 1])]
  }

  /** Lower-casing twice is lower-casing once. */
  lemma LowerIdempotent(s: string)
    ensures Lower(Lower(s)) == Lower(s)
  {
    var l := Lower(s);
    assert forall i :: 0 <= i < |l| ==> LowerChar(l[i]) == l[i];
  }

  function DigitChar(d: nat): (c: char)
    requires d < 10
    ensures '0' <= c <= '9'
  {
    ('0' as int + d) as char
  }

  /** Unsigned integer rendered by `{}`: decimal digits, no sign, no leading zero. */
  function Decimal(n: nat): (s: string)
    ensures |s| > 0
    ensures forall i :: 0 <= i < |s| ==> '0' <= s[i] <= '9'
    ensures |s| > 1 ==> s[0] != '0'
    decreases n
  {
    if n < 10 then [DigitChar(n)] else Decimal(n / 10) + [DigitChar(n % 10)]
  }

  /** The number a string of decimal digits denotes. */
  function DecimalValue(s: string): nat
    requires forall i :: 0 <= i < |s| ==> '0' <= s[i] <= '9'
    decreases |s|
  {
    if s == [] then 0
    else DecimalValue(s[..|s| - 1]) * 10 + (s[|s| - 1] as int - '0' as int)
  }

  /** Reading back the rendered digits gives the number: the rendering loses nothing. */
  lemma {:induction false} DecimalRoundTrip(n: nat)
    ensures DecimalValue(Decimal(n)) == n
    decreases n
  {
    if n >= 10 {
      var s := Decimal(n);
      assert s[..|s| - 1] == Decimal(n / 10);
      DecimalRoundTrip(n / 10);
    }
  }

  /** Distinct numbers render differently. */
  lemma DecimalInjective(m: nat, n: nat)
    requires Decimal(m) == Decimal(n)
    ensures m == n
  {
    DecimalRoundTrip(m);
    DecimalRoundTrip(n);
  }

  /** `s` is `prefix`, then `field`, then `rest`: each part at its own place. */
  predicate Labelled(s: string, prefix: string, field: string, rest: string)
  {
    && |s| == |prefix| + |field| + |rest|
    && s[..|prefix|] == prefix
    && s[|prefix|..|prefix| + |field|] == field
    && s[|prefix| + |field|..] == rest
  }

  lemma LabelledConcat(prefix: string, field: string, rest: string)
    ensures Labelled(prefix + field + rest, prefix, field, rest)
  {
    var s := prefix + field + rest;
    assert s[..|prefix| + |field|] == prefix + field;
  }

  /** A field at the end of a string. */
  lemma LabelledTail(prefix: string, field: string)
    ensures Labelled(prefix + field, prefix, field, "")
  {
    assert prefix + field == prefix + field + "";
    LabelledConcat(prefix, field, "");
  }

  /**
    How a labelled display line `l1 f1 l2 f2 l3 f3 l4 f4 l5` decomposes: each
    label and each field sits directly after everything before it, and `l5`
    ends the line.
   */
  lemma FourFieldsAt(s: string, l1: string, f1: string, l2: string, f2: string, l3: string, f3: string,
                     l4: string, f4: string, l5: string)
    requires s == l1 + f1 + l2 + f2 + l3 + f3 + l4 + f4 + l5
    ensures s[|l1|..|l1| + |f1|] == f1
    ensures s[|l1 + f1 + l2|..|l1 + f1 + l2| + |f2|] == f2
    ensures s[|l1 + f1 + l2 + f2 + l3|..|l1 + f1 + l2 + f2 + l3| + |f3|] == f3
    ensures s[|l1 + f1 + l2 + f2 + l3 + f3 + l4|..|l1 + f1 + l2 + f2 + l3 + f3 + l4| + |f4|] == f4
    ensures s[..|l1|] == l1
    ensures s[|l1 + f1|..|l1 + f1 + l2|] == l2
    ensures s[|l1 + f1 + l2 + f2|..|l1 + f1 + l2 + f2 + l3|] == l3
    ensures s[|l1 + f1 + l2 + f2 + l3 + f3|..|l1 + f1 + l2 + f2 + l3 + f3 + l4|] == l4
    ensures s[|s| - |l5|..] == l5
  {
    var p1 := l1 + f1;
    var p2 := p1 + l2 + f2;
    var p3 := p2 + l3 + f3;
    var p4 := p3 + l4 + f4;
    assert s[..|p4|] == p4;
    assert p4[..|p3|] == p3;
    assert p3[..|p2|] == p2;
    assert p2[..|p1|] == p1;
  }
}
