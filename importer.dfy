/** `RandomUniqueNames` from distcovery/importer.py: a generator of names
    `X_<digits>` that never hands out the same name twice and gives up after
    a bounded number of colliding draws. The random source is an oracle: the
    caller supplies the draws, each in [0, 10^length). */
module Importer {
  import opened Wrappers
  import opened Exceptions

  function Pow10(n: nat): (r: nat)
    ensures r >= 1
  {
    if n == 0 then 1 else 10 * Pow10(n - 1)
  }

  predicate IsDigit(c: char)
  {
    '0' <= c <= '9'
  }

  predicate IsDecimal(s: string)
  {
    forall i :: 0 <= i < |s| ==> IsDigit(s[i])
  }

  function DigitChar(d: nat): (c: char)
    requires d < 10
    ensures IsDigit(c)
  {
    ('0' as int + d) as char
  }

  function DigitValue(c: char): (d: nat)
    requires IsDigit(c)
    ensures d < 10 && DigitChar(d) == c
  {
    c as int - '0' as int
  }

  /** The zero-padded decimal form of n in exactly `width` digits, most
      significant first: what '%0<width>d' prints for n < 10^width. */
  function Digits(n: nat, width: nat): (r: string)
    ensures |r| == width && IsDecimal(r)
  {
    if width == 0 then "" else Digits(n / 10, width - 1) + [DigitChar(n % 10)]
  }

  /** The number a string of decimal digits denotes. */
  function Value(s: string): nat
    requires IsDecimal(s)
  {
    if |s| == 0 then 0 else 10 * Value(s[..|s| - 1]) + DigitValue(s[|s| - 1])
  }

  lemma {:induction false} ValueBound(s: string)
    requires IsDecimal(s)
    ensures Value(s) < Pow10(|s|)
  {
    if |s| > 0 {
      ValueBound(s[..|s| - 1]);
    }
  }

  /** Reading back the padded digits of n gives n. */
  lemma {:induction false} ValueOfDigits(n: nat, width: nat)
    requires n < Pow10(width)
    ensures Value(Digits(n, width)) == n
  {
    if width > 0 {
      var init := Digits(n / 10, width - 1);
      var d := Digits(n, width);
      assert d[..|d| - 1] == init && d[|d| - 1] == DigitChar(n % 10);
      ValueOfDigits(n / 10, width - 1);
      assert DigitValue(DigitChar(n % 10)) == n % 10;
    }
  }

  /** Printing the value of a digit string, padded to its length, gives the
      string back. */
  lemma {:induction false} DigitsOfValue(s: string)
    requires IsDecimal(s)
    ensures Digits(Value(s), |s|) == s
  {
    if |s| > 0 {
      var init := s[..|s| - 1];
      var v := Value(s);
      var d := DigitValue(s[|s| - 1]);
      assert v == 10 * Value(init) + d;
      assert v / 10 == Value(init) && v % 10 == d;
      DigitsOfValue(init);
      assert s == init + [s[|s| - 1]];
    }
  }

  const NamePrefix: string := "X_"

  /** The shape of every generated name: "X_" and then `length` digits. */
  predicate IsName(length: nat, s: string)
  {
    |s| == |NamePrefix| + length && s[..|NamePrefix|] == NamePrefix && IsDecimal(s[|NamePrefix|..])
  }

  /** The name for one draw: 'X_%0<length>d' % draw. */
  function FormatName(length: nat, draw: nat): string
    requires draw < Pow10(length)
  {
    NamePrefix + Digits(draw, length)
  }

  /** Every formatted name has the shape of a name and reads back as its
      draw. */
  lemma FormatNameReads(length: nat, draw: nat)
    requires draw < Pow10(length)
    ensures IsName(length, FormatName(length, draw))
    ensures Value(FormatName(length, draw)[|NamePrefix|..]) == draw
  {
    var r := FormatName(length, draw);
    assert r[|NamePrefix|..] == Digits(draw, length);
    ValueOfDigits(draw, length);
  }

  /** Every name of the right shape is the name of exactly one draw. */
  lemma FormatNameOnto(length: nat, s: string)
    requires IsName(length, s)
    ensures Value(s[|NamePrefix|..]) < Pow10(length)
    ensures FormatName(length, Value(s[|NamePrefix|..])) == s
  {
    var digits := s[|NamePrefix|..];
    ValueBound(digits);
    DigitsOfValue(digits);
    assert s == NamePrefix + digits;
  }

  /** The names of the draws below k. */
  function NameSpace(length: nat, k: nat): set<string>
    requires k <= Pow10(length)
  {
    if k == 0 then {} else NameSpace(length, k - 1) + {FormatName(length, k - 1)}
  }

  /** The name of every draw below k is in the space. */
  lemma {:induction false} NameSpaceHas(length: nat, k: nat)
    requires k <= Pow10(length)
    ensures forall d :: 0 <= d < k ==> FormatName(length, d) in NameSpace(length, k)
  {
    if k > 0 {
      NameSpaceHas(length, k - 1);
      forall d | 0 <= d < k - 1
        ensures FormatName(length, d) in NameSpace(length, k)
      {
        assert FormatName(length, d) in NameSpace(length, k - 1);
      }
    }
  }

  /** Every name in the space reads back as a draw below k. */
  lemma {:induction false} NameSpaceShape(length: nat, k: nat)
    requires k <= Pow10(length)
    ensures forall x :: x in NameSpace(length, k) ==> IsName(length, x) && Value(x[|NamePrefix|..]) < k
  {
    if k > 0 {
      NameSpaceShape(length, k - 1);
      var f := FormatName(length, k - 1);
      forall x | x in NameSpace(length, k)
        ensures IsName(length, x) && Value(x[|NamePrefix|..]) < k
      {
        if x != f {
          assert x in NameSpace(length, k - 1);
        } else {
          FormatNameReads(length, k - 1);
        }
      }
    }
  }

  /** The name of draw k is not among the names of the draws below k. */
  lemma NameSpaceFresh(length: nat, k: nat)
    requires k < Pow10(length)
    ensures FormatName(length, k) !in NameSpace(length, k)
  {
    NameSpaceShape(length, k);
    FormatNameReads(length, k);
  }

  /** There are as many such names as draws, since distinct draws give
      distinct names. */
  lemma {:induction false} NameSpaceSize(length: nat, k: nat)
    requires k <= Pow10(length)
    ensures |NameSpace(length, k)| == k
  {
    if k > 0 {
      var prev := NameSpace(length, k - 1);
      var f := FormatName(length, k - 1);
      NameSpaceSize(length, k - 1);
      NameSpaceFresh(length, k - 1);
      assert NameSpace(length, k) == prev + {f};
      AddFresh(prev, f);
    }
  }

  lemma AddFresh<T>(a: set<T>, x: T)
    requires x !in a
    ensures |a + {x}| == |a| + 1
  {
  }

  lemma SubsetSize<T>(a: set<T>, b: set<T>)
    requires a <= b
    ensures |a| <= |b|
    ensures |a| == |b| ==> a == b
  {
    assert b == a + (b - a);
    assert |b| == |a| + |b - a|;
    if |a| == |b| {
      assert b - a == {};
    }
  }

  /** Names of the right shape number at most 10^length: with length 2 no
      generator can hold 101 of them. */
  lemma IssuedBound(length: nat, issued: set<string>)
    requires forall n :: n in issued ==> IsName(length, n)
    ensures issued <= NameSpace(length, Pow10(length))
    ensures |issued| <= Pow10(length)
  {
    NameSpaceHas(length, Pow10(length));
    forall n | n in issued ensures n in NameSpace(length, Pow10(length)) {
      FormatNameOnto(length, n);
    }
    NameSpaceSize(length, Pow10(length));
    SubsetSize(issued, NameSpace(length, Pow10(length)));
  }

  /** Once 10^length names are issued, every draw collides. */
  lemma Exhausted(length: nat, issued: set<string>, d: nat)
    requires forall n :: n in issued ==> IsName(length, n)
    requires |issued| >= Pow10(length)
    requires d < Pow10(length)
    ensures FormatName(length, d) in issued
  {
    IssuedBound(length, issued);
    NameSpaceSize(length, Pow10(length));
    SubsetSize(issued, NameSpace(length, Pow10(length)));
    NameSpaceHas(length, Pow10(length));
  }

  /** The index of the first draw whose name is not issued yet, or the
      number of draws when every one collides. */
  function FirstFresh(issued: set<string>, length: nat, draws: seq<nat>): (k: nat)
    requires forall i :: 0 <= i < |draws| ==> draws[i] < Pow10(length)
    ensures k <= |draws|
    ensures forall j :: 0 <= j < k ==> FormatName(length, draws[j]) in issued
    ensures k < |draws| ==> FormatName(length, draws[k]) !in issued
  {
    if |draws| == 0 then 0
    else if FormatName(length, draws[0]) !in issued then 0
    else 1 + FirstFresh(issued, length, draws[1..])
  }

  /** The first fresh draw is the only index with every earlier draw
      issued and its own draw fresh (or the end of the draws). */
  lemma FirstFreshUnique(issued: set<string>, length: nat, draws: seq<nat>, k: nat)
    requires forall i :: 0 <= i < |draws| ==> draws[i] < Pow10(length)
    requires k <= |draws|
    requires forall j :: 0 <= j < k ==> FormatName(length, draws[j]) in issued
    requires k < |draws| ==> FormatName(length, draws[k]) !in issued
    ensures FirstFresh(issued, length, draws) == k
  {
  }

  class RandomUniqueNames {
    const limit: nat
    const length: nat
    const factor: nat
    var names: set<string>

    ghost predicate Valid()
      reads this
    {
      limit >= 1 && length >= 1 && factor == Pow10(length)
      && forall n :: n in names ==> IsName(length, n)
    }

    /** Limits and lengths not above 1 are clamped to 1. */
    constructor (limit: int := 10, length: int := 15)
      ensures Valid() && names == {}
      ensures this.limit == if limit > 1 then limit else 1
      ensures this.length == if length > 1 then length else 1
      ensures factor == Pow10(this.length)
    {
      this.limit := if limit > 1 then limit else 1;
      this.length := if length > 1 then length else 1;
      factor := Pow10(if length > 1 then length else 1);
      names := {};
    }

    /** `random_name`, with the draw passed in. */
    function RandomName(draw: nat): (r: string)
      reads this
      requires factor == Pow10(length) && draw < factor
      ensures IsName(length, r) && Value(r[|NamePrefix|..]) == draw
    {
      FormatNameReads(length, draw);
      FormatName(length, draw)
    }

    /** The drawing loop of `new`: tries the draws in order, at most
        `limit` of them, and stops at the first whose name is not issued;
        `limit` when every one collides. */
    method Attempt(draws: seq<nat>) returns (k: nat)
      requires limit >= 1 && factor == Pow10(length)
      requires |draws| >= limit
      requires forall i :: 0 <= i < |draws| ==> draws[i] < factor
      ensures k == FirstFresh(names, length, draws[..limit])
    {
      ghost var prefix := draws[..limit];
      var remaining := limit;
      k := 0;
      var name := RandomName(draws[k]);
      while name in names
        invariant 0 <= k < limit && remaining == limit - k
        invariant name == FormatName(length, draws[k])
        invariant forall j :: 0 <= j < k ==> FormatName(length, draws[j]) in names
        decreases remaining
      {
        remaining := remaining - 1;
        if remaining <= 0 {
          FirstFreshUnique(names, length, prefix, limit);
          return limit;
        }
        k := k + 1;
        name := RandomName(draws[k]);
      }
      assert prefix[k] == draws[k];
      FirstFreshUnique(names, length, prefix, k);
    }

    /** `new`: issues the name of the first fresh draw among the first
        `limit`; when all of them collide it raises
        NoMoreAttempts(limit, length) and issues nothing. */
    method New(draws: seq<nat>) returns (r: Result<string, Error>)
      requires Valid()
      requires |draws| >= limit
      requires forall i :: 0 <= i < |draws| ==> draws[i] < factor
      modifies this
      ensures Valid()
      ensures r == Issue(old(names), length, limit, draws)
      ensures names == if r.Success? then old(names) + {r.value} else old(names)
    {
      var k := Attempt(draws);
      if k == limit {
        return Failure(NoMoreAttempts(limit, length));
      }
      assert draws[..limit][k] == draws[k];
      var name := RandomName(draws[k]);
      names := names + {name};
      r := Success(name);
    }
  }

  /** What `new` returns for the names issued so far and the draws. */
  function Issue(issued: set<string>, length: nat, limit: nat, draws: seq<nat>): Result<string, Error>
    requires limit <= |draws|
    requires forall i :: 0 <= i < |draws| ==> draws[i] < Pow10(length)
  {
    var k := FirstFresh(issued, length, draws[..limit]);
    if k < limit then Success(FormatName(length, draws[k])) else Failure(NoMoreAttempts(limit, length))
  }

  /** `new` never hands out a name twice, and the name it hands out has
      the shape of a name. */
  lemma IssueFresh(issued: set<string>, length: nat, limit: nat, draws: seq<nat>)
    requires limit <= |draws|
    requires forall i :: 0 <= i < |draws| ==> draws[i] < Pow10(length)
    ensures Issue(issued, length, limit, draws).Success? ==>
      Issue(issued, length, limit, draws).value !in issued
      && IsName(length, Issue(issued, length, limit, draws).value)
  {
    var k := FirstFresh(issued, length, draws[..limit]);
    if k < limit {
      assert draws[..limit][k] == draws[k];
      FormatNameReads(length, draws[k]);
    }
  }

  /** Once every name of the right shape is issued, `new` fails. */
  lemma IssueExhausted(issued: set<string>, length: nat, limit: nat, draws: seq<nat>)
    requires limit <= |draws|
    requires forall i :: 0 <= i < |draws| ==> draws[i] < Pow10(length)
    requires forall n :: n in issued ==> IsName(length, n)
    requires |issued| >= Pow10(length)
    ensures Issue(issued, length, limit, draws).Failure?
  {
    var k := FirstFresh(issued, length, draws[..limit]);
    if k < limit {
      assert draws[..limit][k] == draws[k];
      Exhausted(length, issued, draws[k]);
    }
  }
}
