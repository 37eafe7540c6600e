/** The errors the discoverers raise, and the messages distcovery's
    exception classes build from their templates. */
module Exceptions {
  import opened FileSystem
  import Strings

  /** InvalidTestRoot(tests, current), NoTestModulesException(path),
      UnknownModulesException(modules) and NoMoreAttempts(limit, length);
      `Os` is an `OSError` from the filesystem passing through. */
  datatype Error =
    | InvalidTestRoot(tests: string, current: string)
    | NoTestModules(path: string)
    | UnknownModules(modules: set<string>)
    | NoMoreAttempts(limit: int, length: int)
    | Os(error: OsError)

  function Quote(s: string): string
  {
    "\"" + s + "\""
  }

  function QuoteAll(xs: seq<string>): (r: seq<string>)
    ensures |r| == |xs| && forall i :: 0 <= i < |xs| ==> r[i] == Quote(xs[i])
  {
    if |xs| == 0 then [] else [Quote(xs[0])] + QuoteAll(xs[1..])
  }

  /** `UnknownModulesException.stringify_list`: the items quoted, joined by
      ", " with " and " before the last one, and the plural suffix "s" when
      there is more than one. Reading `items[-1]` demands a non-empty list. */
  function StringifyList(items: seq<string>): (r: (string, string))
    requires |items| > 0
    ensures |items| == 1 ==> r == (Quote(items[0]), "")
    ensures |items| > 1 ==>
      r == (Strings.Join(QuoteAll(items[..|items| - 1]), ", ") + " and " + Quote(items[|items| - 1]), "s")
  {
    var n := |items|;
    var last := Quote(items[n - 1]);
    if n > 1 then
      var j := Strings.Join(items[..n - 1], "\", \"");
      QuotedJoin(items[..n - 1]);
      assert "\"" + j + "\" and " + last == ("\"" + j + "\"") + " and " + last;
      ("\"" + j + "\" and " + last, "s")
    else (last, "")
  }

  /** Quoting the whole `'", "'.join` quotes every item and joins them with ", ". */
  lemma {:induction false} QuotedJoin(xs: seq<string>)
    requires |xs| >= 1
    ensures "\"" + Strings.Join(xs, "\", \"") + "\"" == Strings.Join(QuoteAll(xs), ", ")
  {
    if |xs| > 1 {
      QuotedJoin(xs[1..]);
      var q := QuoteAll(xs);
      assert q[1..] == QuoteAll(xs[1..]);
      var j := Strings.Join(xs[1..], "\", \"");
      calc {
        "\"" + Strings.Join(xs, "\", \"") + "\"";
        "\"" + (xs[0] + "\", \"" + j) + "\"";
        Quote(xs[0]) + ", " + ("\"" + j + "\"");
        q[0] + ", " + Strings.Join(q[1..], ", ");
      }
    } else {
      assert QuoteAll(xs) == [Quote(xs[0])];
    }
  }

  /** Every part of a join occurs in it, at the returned offset. */
  lemma {:induction false} JoinHolds(parts: seq<string>, sep: string, k: nat) returns (at: nat)
    requires k < |parts|
    ensures at + |parts[k]| <= |Strings.Join(parts, sep)|
    ensures Strings.Join(parts, sep)[at..at + |parts[k]|] == parts[k]
  {
    var j := Strings.Join(parts, sep);
    if |parts| == 1 {
      at := 0;
    } else if k == 0 {
      at := 0;
      assert j == parts[0] + (sep + Strings.Join(parts[1..], sep));
    } else {
      var inner := JoinHolds(parts[1..], sep, k - 1);
      var head := parts[0] + sep;
      var rest := Strings.Join(parts[1..], sep);
      assert j == head + rest;
      at := |head| + inner;
      assert j[at..at + |parts[k]|] == rest[inner..inner + |parts[k]|];
    }
  }

  /** The rendered list names every item between quotes, so the error
      reports all offending names, not just the first. */
  lemma StringifyNamesEveryItem(items: seq<string>, k: nat) returns (at: nat)
    requires k < |items|
    ensures at + |Quote(items[k])| <= |StringifyList(items).0|
    ensures StringifyList(items).0[at..at + |Quote(items[k])|] == Quote(items[k])
  {
    var n := |items|;
    var r := StringifyList(items).0;
    if n == 1 {
      at := 0;
    } else {
      var listed := Strings.Join(QuoteAll(items[..n - 1]), ", ");
      var last := Quote(items[n - 1]);
      assert r == listed + (" and " + last);
      if k < n - 1 {
        at := JoinHolds(QuoteAll(items[..n - 1]), ", ", k);
        assert QuoteAll(items[..n - 1])[k] == Quote(items[k]);
        SliceOfPrefix(listed, " and " + last, at, at + |Quote(items[k])|);
      } else {
        at := |listed| + 5;
        DropHead(listed + " and ", last);
        assert listed + (" and " + last) == listed + " and " + last;
      }
    }
  }

  /** One item is quoted alone, with no plural suffix. */
  lemma StringifyOne()
    ensures StringifyList(["x"]) == ("\"x\"", "")
  {
    assert Quote("x") == "\"x\"";
  }

  /** Three items are listed with ", " and " and ", with the suffix "s". */
  lemma StringifyThree()
    ensures StringifyList(["xxx", "yyy", "zzz"]) == ("\"xxx\", \"yyy\" and \"zzz\"", "s")
  {
    var items := ["xxx", "yyy", "zzz"];
    assert items[..2] == ["xxx", "yyy"];
    assert ["xxx", "yyy"][1..] == ["yyy"];
    var j := Strings.Join(["xxx", "yyy"], "\", \"");
    assert j == "xxx" + "\", \"" + "yyy";
    JoinedPair();
    assert Quote("zzz") == "\"zzz\"";
    assert "\"" + "xxx\", \"yyy" + "\" and " + "\"zzz\"" == "\"xxx\", \"yyy\" and \"zzz\"";
  }

  /** A string step of `StringifyThree`. */
  lemma JoinedPair()
    ensures "xxx" + "\", \"" + "yyy" == "xxx\", \"yyy"
  {
  }

  const UnknownHead: string := "Unknown module"

  /** The `UnknownModulesException` message:
      'Unknown module' + suffix + ': ' + rendered list + '.'. */
  function UnknownModulesMessage(items: seq<string>): (r: string)
    requires |items| > 0
    ensures |r| > |UnknownHead| && r[..|UnknownHead|] == UnknownHead
    ensures (r[|UnknownHead|] == 's') <==> |items| > 1
    ensures r[|r| - 1] == '.'
  {
    var (modules, suffix) := StringifyList(items);
    UnknownHead + suffix + ": " + modules + "."
  }

  const InvalidRootHead: string := "Can't run tests outside current directory. Tests directory: \""
  const InvalidRootMiddle: string := "\". Current directory: \""
  const InvalidRootTail: string := "\"."

  /** The `InvalidTestRoot` message: the tests directory, then the current one. */
  function InvalidTestRootMessage(tests: string, current: string): string
  {
    InvalidRootHead + tests + InvalidRootMiddle + current + InvalidRootTail
  }

  /** Both directories can be read back from the message, in order, as long
      as the tests directory holds no double quote. */
  lemma InvalidTestRootMessageInjective(t1: string, c1: string, t2: string, c2: string)
    requires '"' !in t1 && '"' !in t2
    requires InvalidTestRootMessage(t1, c1) == InvalidTestRootMessage(t2, c2)
    ensures t1 == t2 && c1 == c2
  {
    var h := |InvalidRootHead|;
    var r1 := InvalidRootMiddle + c1 + InvalidRootTail;
    var r2 := InvalidRootMiddle + c2 + InvalidRootTail;
    Regroup(InvalidRootHead, t1, InvalidRootMiddle, c1, InvalidRootTail);
    Regroup(InvalidRootHead, t2, InvalidRootMiddle, c2, InvalidRootTail);
    DropHead(InvalidRootHead, t1 + r1);
    DropHead(InvalidRootHead, t2 + r2);
    SplitAtQuote(t1, r1, t2, r2);
    ReadMiddle(c1, c2);
  }

  /** Regrouping of the message parts, for `InvalidTestRootMessageInjective`. */
  lemma Regroup(a: string, b: string, c: string, d: string, e: string)
    ensures a + b + c + d + e == a + (b + (c + d + e))
  {
  }

  /** A slice inside the left operand, for `StringifyNamesEveryItem`. */
  lemma SliceOfPrefix(a: string, b: string, i: nat, j: nat)
    requires i <= j <= |a|
    ensures (a + b)[i..j] == a[i..j]
  {
  }

  /** Dropping a known head, for `StringifyNamesEveryItem` and
      `InvalidTestRootMessageInjective`. */
  lemma DropHead(a: string, b: string)
    ensures (a + b)[|a|..] == b
  {
  }

  /** Text free of double quotes, followed by text opening with one, splits
      in one way only. */
  lemma SplitAtQuote(t1: string, r1: string, t2: string, r2: string)
    requires '"' !in t1 && '"' !in t2
    requires |r1| > 0 && r1[0] == '"' && |r2| > 0 && r2[0] == '"'
    requires t1 + r1 == t2 + r2
    ensures t1 == t2 && r1 == r2
  {
    QuoteStops(t1, r1);
    QuoteStops(t2, r2);
    assert t1 == (t1 + r1)[..|t1|] && t2 == (t2 + r2)[..|t2|];
    assert r1 == (t1 + r1)[|t1|..] && r2 == (t2 + r2)[|t2|..];
  }

  lemma ReadMiddle(c1: string, c2: string)
    requires InvalidRootMiddle + c1 + InvalidRootTail == InvalidRootMiddle + c2 + InvalidRootTail
    ensures c1 == c2
  {
    var r := InvalidRootMiddle + c1 + InvalidRootTail;
    var k := |InvalidRootMiddle|;
    assert c1 == r[k..|r| - |InvalidRootTail|];
    assert c2 == (InvalidRootMiddle + c2 + InvalidRootTail)[k..|r| - |InvalidRootTail|];
  }

  /** The number of characters before the first double quote. */
  function QuoteFreeLength(s: string): nat
  {
    if |s| == 0 || s[0] == '"' then 0 else 1 + QuoteFreeLength(s[1..])
  }

  lemma {:induction false} QuoteStops(t: string, r: string)
    requires '"' !in t && |r| > 0 && r[0] == '"'
    ensures QuoteFreeLength(t + r) == |t|
  {
    if |t| > 0 {
      assert (t + r)[1..] == t[1..] + r;
      QuoteStops(t[1..], r);
    } else {
      assert t + r == r;
    }
  }

  const NoModulesHead: string := "Couldn't find any test module. Make sure that path \""
  const NoModulesTail: string :=
    "\" contains any valid python module named \"test_*.py\" or package \"test_*\"."

  /** The `NoTestModulesException` message, embedding the path. */
  function NoTestModulesMessage(path: string): string
  {
    NoModulesHead + path + NoModulesTail
  }

  /** The path can be read back from the message. */
  lemma NoTestModulesMessageInjective(p1: string, p2: string)
    requires NoTestModulesMessage(p1) == NoTestModulesMessage(p2)
    ensures p1 == p2
  {
    var m := NoTestModulesMessage(p1);
    assert p1 == m[|NoModulesHead|..|m| - |NoModulesTail|];
    assert p2 == NoTestModulesMessage(p2)[|NoModulesHead|..|m| - |NoModulesTail|];
  }
}
