/**
 * The operations on Python `str` values that both tools rely on:
 * ordering (`sorted`), `sep.join`, `str.replace`, `str.strip`,
 * `str.endswith` and `str.split`.
 */
module Text {

  /** Python's `a < b` on `str`: code point by code point, a proper prefix first. */
  predicate Less(a: string, b: string): (r: bool)
    ensures |a| < |b| && a == b[..|a|] ==> r
    ensures r ==> |b| > 0
  {
    |b| > 0 && (|a| == 0 || if a[0] == b[0] then Less(a[1..], b[1..]) else a[0] < b[0])
  }

  lemma {:induction false} LessIrreflexive(a: string)
    ensures !Less(a, a)
  {
    if |a| > 0 {
      LessIrreflexive(a[1..]);
    }
  }

  lemma {:induction false} LessTransitive(a: string, b: string, c: string)
    requires Less(a, b) && Less(b, c)
    ensures Less(a, c)
  {
    if |a| > 0 && a[0] == b[0] && b[0] == c[0] {
      LessTransitive(a[1..], b[1..], c[1..]);
    }
  }

  lemma {:induction false} LessTotal(a: string, b: string)
    requires a != b
    ensures Less(a, b) || Less(b, a)
  {
    if |a| > 0 && |b| > 0 && a[0] == b[0] {
      assert a == [a[0]] + a[1..] && b == [b[0]] + b[1..];
      LessTotal(a[1..], b[1..]);
    }
  }

  lemma LessAsymmetric(a: string, b: string)
    requires Less(a, b)
    ensures !Less(b, a)
  {
  }

  /** Every element lies strictly below every later one: sorted, and so without repeats. */
  predicate StrictlySorted(s: seq<string>)
  {
    forall i, j :: 0 <= i < j < |s| ==> Less(s[i], s[j])
  }

  lemma BelowAll(x: string, s: seq<string>)
    requires StrictlySorted(s) && |s| > 0 && Less(x, s[0])
    ensures forall y :: y in s ==> Less(x, y)
  {
    forall y | y in s
      ensures Less(x, y)
    {
      if y != s[0] {
        var j :| 0 <= j < |s| && s[j] == y;
        LessTransitive(x, s[0], y);
      }
    }
  }

  lemma HeadBelowTail(s: seq<string>)
    requires StrictlySorted(s) && |s| > 0
    ensures forall y :: y in s[1..] ==> Less(s[0], y)
  {
  }

  /** Adds `x` to a strictly sorted sequence, keeping it strictly sorted. */
  function Insert(s: seq<string>, x: string): (r: seq<string>)
    requires StrictlySorted(s)
    ensures StrictlySorted(r)
    ensures forall y :: y in r <==> y in s || y == x
  {
    if |s| == 0 then [x]
    else if x == s[0] then s
    else if Less(x, s[0]) then
      BelowAll(x, s);
      [x] + s
    else
      LessTotal(x, s[0]);
      HeadBelowTail(s);
      var t := Insert(s[1..], x);
      assert forall y :: y in s ==> y == s[0] || y in s[1..];
      [s[0]] + t
  }

  /** A finite non-empty set of strings has a least element. */
  lemma {:induction false} LeastExists(names: set<string>)
    requires names != {}
    ensures exists m :: m in names && forall y :: y in names && y != m ==> Less(m, y)
    decreases |names|
  {
    var x :| x in names;
    if names != {x} {
      var rest := names - {x};
      LeastExists(rest);
      var m :| m in rest && forall y :: y in rest && y != m ==> Less(m, y);
      LessTotal(x, m);
      if Less(x, m) {
        forall y | y in names && y != x
          ensures Less(x, y)
        {
          if y != m {
            LessTransitive(x, m, y);
          }
        }
      } else {
        assert forall y :: y in names && y != m ==> Less(m, y);
      }
    }
  }

  /** Python's `sorted(names)` for a set of strings: the unique strictly increasing enumeration. */
  ghost function SortedSet(names: set<string>): (r: seq<string>)
    ensures StrictlySorted(r)
    ensures forall y :: y in r <==> y in names
    decreases |names|
  {
    if names == {} then []
    else
      LeastExists(names);
      var m :| m in names && forall y :: y in names && y != m ==> Less(m, y);
      var rest := SortedSet(names - {m});
      assert forall y :: y in rest ==> Less(m, y);
      [m] + rest
  }

  /** Two strictly sorted sequences with the same elements are equal. */
  lemma {:induction false} SortedUnique(a: seq<string>, b: seq<string>)
    requires StrictlySorted(a) && StrictlySorted(b)
    requires forall y :: y in a <==> y in b
    ensures a == b
  {
    assert |b| == 0 || b[0] in b;
    if |a| > 0 {
      assert a[0] in b;
      assert |b| > 0;
      HeadBelowTail(a);
      HeadBelowTail(b);
      LessIrreflexive(a[0]);
      LessIrreflexive(b[0]);
      if a[0] != b[0] {
        assert a[0] in b[1..] by {
          assert a[0] in b && b == [b[0]] + b[1..];
        }
        assert b[0] in a[1..] by {
          assert b[0] in a && a == [a[0]] + a[1..];
        }
        LessAsymmetric(a[0], b[0]);
      }
      forall y
        ensures y in a[1..] <==> y in b[1..]
      {
        assert y in a <==> y == a[0] || y in a[1..] by {
          assert a == [a[0]] + a[1..];
        }
        assert y in b <==> y == b[0] || y in b[1..] by {
          assert b == [b[0]] + b[1..];
        }
      }
      SortedUnique(a[1..], b[1..]);
      assert a == [a[0]] + a[1..] && b == [b[0]] + b[1..];
    }
  }

  /** Python's `sep.join(parts)`. */
  function Join(parts: seq<string>, sep: string): string
  {
    if |parts| == 0 then ""
    else if |parts| == 1 then parts[0]
    else parts[0] + sep + Join(parts[1..], sep)
  }

  /** Python's `s.endswith(suffix)`. */
  predicate EndsWith(s: string, suffix: string)
  {
    |suffix| <= |s| && s[|s| - |suffix|..] == suffix
  }

  /** Python's `s.replace(pat, sub)` for a non-empty `pat`: leftmost, non-overlapping. */
  function Replace(s: string, pat: string, sub: string): (r: string)
    requires |pat| > 0
    ensures |sub| <= |pat| ==> |r| <= |s|
    ensures sub == pat ==> r == s
    decreases |s|
  {
    if |s| < |pat| then s
    else if s[..|pat|] == pat then sub + Replace(s[|pat|..], pat, sub)
    else [s[0]] + Replace(s[1..], pat, sub)
  }

  /**
   * No occurrence of " + " can begin inside a text free of '+' when the
   * text after it does not begin with '+', so replacing passes it over.
   */
  /** Where the second character is not '+', no " + " starts at the front. */
  lemma ReplaceStep(s: string)
    requires |s| >= 3 && s[1] != '+'
    ensures Replace(s, " + ", "_") == [s[0]] + Replace(s[1..], " + ", "_")
  {
  }

  lemma {:induction false} ReplaceSkips(a: string, b: string)
    requires '+' !in a
    requires b == [] || b[0] != '+'
    ensures Replace(a + b, " + ", "_") == a + Replace(b, " + ", "_")
  {
    if |a| > 0 {
      var s := a + b;
      if |s| >= 3 {
        assert s[1] != '+' by {
          if |a| >= 2 {
            assert s[1] == a[1] && a[1] in a;
          } else {
            assert s[1] == b[0];
          }
        }
        ReplaceStep(s);
        assert s[1..] == a[1..] + b;
        assert '+' !in a[1..] by {
          assert forall c :: c in a[1..] ==> c in a;
        }
        ReplaceSkips(a[1..], b);
        calc {
          Replace(s, " + ", "_");
          [s[0]] + Replace(a[1..] + b, " + ", "_");
          [a[0]] + (a[1..] + Replace(b, " + ", "_"));
          { assert a == [a[0]] + a[1..]; }
          a + Replace(b, " + ", "_");
        }
      } else {
        assert Replace(s, " + ", "_") == s;
        assert Replace(b, " + ", "_") == b;
      }
    } else {
      assert a + b == b;
    }
  }

  /** Replacing the joiner " + " by "_" re-joins parts free of '+' with "_". */
  lemma {:induction false} ReplaceJoiner(parts: seq<string>)
    requires forall p :: p in parts ==> '+' !in p
    ensures Replace(Join(parts, " + "), " + ", "_") == Join(parts, "_")
  {
    if |parts| == 1 {
      ReplaceSkips(parts[0], "");
      assert parts[0] + "" == parts[0];
    } else if |parts| > 1 {
      var rest := Join(parts[1..], " + ");
      ReplaceSkips(parts[0], " + " + rest);
      assert parts[0] + " + " + rest == parts[0] + (" + " + rest);
      assert (" + " + rest)[..3] == " + " && (" + " + rest)[3..] == rest;
      ReplaceJoiner(parts[1..]);
    }
  }

  /** The characters Python's `str.isspace()` accepts, which `str.strip()` removes. */
  predicate IsSpace(c: char)
  {
    ('\U{9}' <= c <= '\U{D}') || ('\U{1C}' <= c <= ' ') || c == '\U{85}' || c == '\U{A0}'
    || c == '\U{1680}' || ('\U{2000}' <= c <= '\U{200A}') || c == '\U{2028}' || c == '\U{2029}'
    || c == '\U{202F}' || c == '\U{205F}' || c == '\U{3000}'
  }

  /** Python's `s.lstrip()`: the suffix left after dropping leading whitespace. */
  function TrimStart(s: string): (r: string)
    ensures |r| <= |s| && r == s[|s| - |r|..]
    ensures forall k :: 0 <= k < |s| - |r| ==> IsSpace(s[k])
    ensures r == [] || !IsSpace(r[0])
  {
    if |s| > 0 && IsSpace(s[0]) then TrimStart(s[1..]) else s
  }

  /** Python's `s.rstrip()`: the prefix left after dropping trailing whitespace. */
  function TrimEnd(s: string): (r: string)
    ensures |r| <= |s| && r == s[..|r|]
    ensures forall k :: |r| <= k < |s| ==> IsSpace(s[k])
    ensures r == [] || !IsSpace(r[|r| - 1])
  {
    if |s| > 0 && IsSpace(s[|s| - 1]) then TrimEnd(s[..|s| - 1]) else s
  }

  /** Python's `s.strip()`. */
  function Strip(s: string): (r: string)
    ensures |r| <= |s|
    ensures r == [] || (!IsSpace(r[0]) && !IsSpace(r[|r| - 1]))
  {
    TrimEnd(TrimStart(s))
  }

  /** `s.strip()` is empty exactly when `s` is all whitespace. */
  lemma StripEmpty(s: string)
    ensures Strip(s) == "" <==> forall k :: 0 <= k < |s| ==> IsSpace(s[k])
  {
  }

  /** Python's `s.split(sep)` for a one-character separator. */
  function Split(s: string, sep: char): (r: seq<string>)
    ensures |r| > 0
    ensures forall p :: p in r ==> sep !in p
    ensures Join(r, [sep]) == s
  {
    if |s| == 0 then [""]
    else
      var rest := Split(s[1..], sep);
      if s[0] == sep then
        assert s == [sep] + s[1..];
        [""] + rest
      else
        JoinHead([s[0]], rest, [sep]);
        assert s == [s[0]] + s[1..];
        [[s[0]] + rest[0]] + rest[1..]
  }

  lemma JoinHead(x: string, parts: seq<string>, sep: string)
    requires |parts| > 0
    ensures Join([x + parts[0]] + parts[1..], sep) == x + Join(parts, sep)
  {
  }

  /** `sep.join(parts)` starts with the first part and ends with the last. */
  lemma {:induction false} JoinEnds(parts: seq<string>, sep: string)
    requires |parts| > 0
    ensures |parts[0]| <= |Join(parts, sep)| && Join(parts, sep)[..|parts[0]|] == parts[0]
    ensures EndsWith(Join(parts, sep), parts[|parts| - 1])
  {
    if |parts| > 1 {
      JoinEnds(parts[1..], sep);
      var rest := Join(parts[1..], sep);
      var last := parts[|parts| - 1];
      var s := parts[0] + sep + rest;
      assert s[|s| - |last|..] == rest[|rest| - |last|..];
    }
  }

  /** Splitting a join again gives back its parts, when no part holds the separator. */
  lemma {:induction false} SplitJoin(parts: seq<string>, sep: char)
    requires |parts| > 0
    requires forall p :: p in parts ==> sep !in p
    ensures Split(Join(parts, [sep]), sep) == parts
  {
    if |parts| == 1 {
      SplitAlone(parts[0], sep);
    } else {
      SplitPeel(parts[0], Join(parts[1..], [sep]), sep);
      SplitJoin(parts[1..], sep);
      assert parts == [parts[0]] + parts[1..];
    }
  }

  /** A text without the separator splits into itself alone. */
  lemma SplitAlone(x: string, sep: char)
    requires sep !in x
    ensures Split(x, sep) == [x]
  {
  }

  /** Splitting `x + sep + t` peels `x` off the front. */
  lemma {:induction false} SplitPeel(x: string, t: string, sep: char)
    requires sep !in x
    ensures Split(x + [sep] + t, sep) == [x] + Split(t, sep)
  {
    var s := x + [sep] + t;
    if |x| == 0 {
      assert s == [sep] + t;
      assert s[1..] == t;
    } else {
      SplitPeel(x[1..], t, sep);
      assert s[1..] == x[1..] + [sep] + t;
      assert x == [x[0]] + x[1..];
    }
  }
}
