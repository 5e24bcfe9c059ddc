/**
 * The part of the WHATWG URL Standard the content client relies on: a query is a list of
 * (name, value) pairs, `URLSearchParams.set` (section 6.2) and `URLSearchParams.get`, and the
 * decimal rendering a JavaScript integer gets from `toString()`.
 * Percent-encoding by the application/x-www-form-urlencoded serializer is not modelled.
 */
module SearchParams {
  import opened Wrappers

  datatype Pair = Pair(name: string, value: string)

  /** `URLSearchParams.get`: the value of the first pair with that name. */
  function Get(q: seq<Pair>, name: string): Option<string> {
    if q == [] then None
    else if q[0].name == name then Some(q[0].value)
    else Get(q[1..], name)
  }

  /** `URLSearchParams.has`. */
  predicate Has(q: seq<Pair>, name: string) {
    Get(q, name).Some?
  }

  /** No name occurs twice in the list. */
  predicate UniqueNames(q: seq<Pair>) {
    forall i, j :: 0 <= i < j < |q| ==> q[i].name != q[j].name
  }

  /** The list without any pair of that name. */
  function RemoveName(q: seq<Pair>, name: string): (r: seq<Pair>)
    ensures !Has(r, name)
  {
    if q == [] then []
    else if q[0].name == name then RemoveName(q[1..], name)
    else [q[0]] + RemoveName(q[1..], name)
  }

  /** Overwrites the value of the first pair called `name` and removes the later ones. */
  function ReplaceFirst(q: seq<Pair>, name: string, value: string): seq<Pair>
    requires Has(q, name)
  {
    if q[0].name == name then [Pair(name, value)] + RemoveName(q[1..], name)
    else [q[0]] + ReplaceFirst(q[1..], name, value)
  }

  /**
   * `URLSearchParams.set(name, value)`: when a pair called `name` exists, the first one
   * takes the new value and the others are removed; otherwise the pair is appended.
   */
  function Set(q: seq<Pair>, name: string, value: string): seq<Pair> {
    if Has(q, name) then ReplaceFirst(q, name, value) else q + [Pair(name, value)]
  }

  /** A name is present exactly when some pair carries it. */
  lemma {:induction false} HasIndex(q: seq<Pair>, name: string)
    ensures Has(q, name) <==> exists i :: 0 <= i < |q| && q[i].name == name
  {
    if q != [] {
      HasIndex(q[1..], name);
      if q[0].name != name {
        if exists i :: 0 <= i < |q| && q[i].name == name {
          var i :| 0 <= i < |q| && q[i].name == name;
          assert q[1..][i - 1].name == name;
        }
      }
    }
  }

  /** In a list without duplicate names, `get` finds the pair wherever it stands. */
  lemma {:induction false} GetAt(q: seq<Pair>, k: nat)
    requires UniqueNames(q) && k < |q|
    ensures Get(q, q[k].name) == Some(q[k].value)
  {
    if k > 0 {
      assert q[0].name != q[k].name;
      assert q[1..][k - 1] == q[k];
      GetAt(q[1..], k - 1);
    }
  }

  /** Removing a name that is absent changes nothing. */
  lemma {:induction false} RemoveAbsent(q: seq<Pair>, name: string)
    requires !Has(q, name)
    ensures RemoveName(q, name) == q
  {
    if q != [] {
      RemoveAbsent(q[1..], name);
    }
  }

  /** On a list without duplicate names, `set` of a present name overwrites that pair in place. */
  lemma {:induction false} SetInPlace(q: seq<Pair>, k: nat, value: string)
    requires UniqueNames(q) && k < |q|
    ensures Set(q, q[k].name, value) == q[k := Pair(q[k].name, value)]
  {
    var name := q[k].name;
    GetAt(q, k);
    if k == 0 {
      HasIndex(q[1..], name);
      forall i | 0 <= i < |q[1..]| ensures q[1..][i].name != name {
        assert q[1..][i] == q[i + 1];
      }
      RemoveAbsent(q[1..], name);
    } else {
      assert q[1..][k - 1] == q[k];
      SetInPlace(q[1..], k - 1, value);
      assert q[0].name != name;
      assert [q[0]] + q[1..][k - 1 := Pair(name, value)] == q[k := Pair(name, value)];
    }
  }

  /** `set` of an absent name appends a pair. */
  lemma SetAppends(q: seq<Pair>, name: string, value: string)
    requires !(exists i :: 0 <= i < |q| && q[i].name == name)
    ensures Set(q, name, value) == q + [Pair(name, value)]
  {
    HasIndex(q, name);
  }

  /**
   * `set` on a list without duplicate names: the list stays without duplicates, the first
   * pair keeps its name, `get(name)` now yields the new value and every other name yields
   * what it yielded before.
   */
  lemma SetProperties(q: seq<Pair>, name: string, value: string)
    requires UniqueNames(q)
    ensures var r := Set(q, name, value);
      && UniqueNames(r)
      && |r| >= 1
      && (q != [] ==> r[0].name == q[0].name)
      && Get(r, name) == Some(value)
      && forall other :: other != name ==> Get(r, other) == Get(q, other)
  {
    var r := Set(q, name, value);
    if k :| 0 <= k < |q| && q[k].name == name {
      SetInPlace(q, k, value);
      GetAt(r, k);
      forall other | other != name ensures Get(r, other) == Get(q, other) {
        GetOtherInPlace(q, k, value, other);
      }
    } else {
      SetAppends(q, name, value);
      GetAt(r, |q|);
      forall other | other != name ensures Get(r, other) == Get(q, other) {
        GetAppendOther(q, Pair(name, value), other);
      }
    }
  }

  lemma {:induction false} GetOtherInPlace(q: seq<Pair>, k: nat, value: string, other: string)
    requires k < |q| && other != q[k].name
    ensures Get(q[k := Pair(q[k].name, value)], other) == Get(q, other)
  {
    if k > 0 {
      assert q[k := Pair(q[k].name, value)][1..] == q[1..][k - 1 := Pair(q[k].name, value)];
      GetOtherInPlace(q[1..], k - 1, value, other);
    }
  }

  lemma {:induction false} GetAppendOther(q: seq<Pair>, p: Pair, other: string)
    requires other != p.name
    ensures Get(q + [p], other) == Get(q, other)
  {
    if q != [] {
      assert (q + [p])[1..] == q[1..] + [p];
      GetAppendOther(q[1..], p, other);
    }
  }

  // ---------------------------------------------------------------------------------------
  // `value.toString()` for the two kinds of caller value.

  /** A caller's query value: a string, or a number (the source only passes integers). */
  datatype ParamValue = Text(text: string) | Number(number: int)

  predicate IsDigit(c: char) {
    '0' <= c <= '9'
  }

  /** The decimal digits of a natural number, most significant first, without leading zeros. */
  function NaturalString(n: nat): (r: string)
    ensures |r| >= 1 && (forall i :: 0 <= i < |r| ==> IsDigit(r[i]))
    ensures |r| > 1 ==> r[0] != '0'
  {
    if n < 10 then ["0123456789"[n]]
    else NaturalString(n / 10) + ["0123456789"[n % 10]]
  }

  /** `Number.prototype.toString()` of an integer: an optional minus sign, then its digits. */
  function DecimalString(n: int): string {
    if n < 0 then "-" + NaturalString(-n) else NaturalString(n)
  }

  /** `value.toString()` of a caller value. */
  function Render(v: ParamValue): string {
    match v
    case Text(s) => s
    case Number(n) => DecimalString(n)
  }

  /** The number a string of decimal digits denotes. */
  function DigitsValue(s: string): nat
    requires forall i :: 0 <= i < |s| ==> IsDigit(s[i])
  {
    if s == [] then 0
    else
      assert IsDigit(s[|s| - 1]);
      10 * DigitsValue(s[..|s| - 1]) + (s[|s| - 1] as int - '0' as int)
  }

  /** Reads back an optionally signed run of decimal digits (the integer case of `Number(s)`). */
  function ParseDecimal(s: string): Option<int> {
    if s == [] then None
    else if s[0] == '-' then
      if |s| > 1 && forall i :: 1 <= i < |s| ==> IsDigit(s[i]) then Some(-(DigitsValue(s[1..]) as int)) else None
    else if forall i :: 0 <= i < |s| ==> IsDigit(s[i]) then Some(DigitsValue(s))
    else None
  }

  lemma {:induction false} NaturalStringValue(n: nat)
    ensures DigitsValue(NaturalString(n)) == n
  {
    if n >= 10 {
      var r := NaturalString(n);
      NaturalStringValue(n / 10);
      assert r[..|r| - 1] == NaturalString(n / 10);
    }
  }

  /** A run of digits, with or without a leading minus, is read back by its digit value. */
  lemma ParseDigits(digits: string)
    requires |digits| >= 1 && forall i :: 0 <= i < |digits| ==> IsDigit(digits[i])
    ensures ParseDecimal(digits) == Some(DigitsValue(digits) as int)
    ensures ParseDecimal("-" + digits) == Some(-(DigitsValue(digits) as int))
  {
    assert digits[0] != '-' by {
      assert IsDigit(digits[0]);
    }
    var r := "-" + digits;
    assert r[1..] == digits;
    assert forall i :: 1 <= i < |r| ==> r[i] == digits[i - 1];
  }

  /** Decimal rendering is read back exactly, so distinct integers render differently. */
  lemma DecimalRoundTrip(n: int)
    ensures ParseDecimal(DecimalString(n)) == Some(n)
  {
    var m: nat := if n < 0 then -n else n;
    var d := NaturalString(m);
    NaturalStringValue(m);
    ParseDigits(d);
    if n < 0 {
      assert DecimalString(n) == "-" + d;
    } else {
      assert DecimalString(n) == d;
    }
  }
}
