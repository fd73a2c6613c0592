/** The few JavaScript string operations the build relies on: split and join on one
    character, substring and suffix tests, `trim()` emptiness, and code-point order. */
module JsString {

  import opened Wrappers

  /** `parts.join(c)`. */
  function Join(parts: seq<string>, c: char): string
  {
    if |parts| == 0 then ""
    else if |parts| == 1 then parts[0]
    else parts[0] + [c] + Join(parts[1..], c)
  }

  /** `s.split(c)`: the pieces between the occurrences of `c`, in order; there is always at
      least one. SplitPieces and JoinSplit below say that no piece holds `c` and that joining
      the pieces with `c` gives `s` back. */
  function Split(s: string, c: char): (r: seq<string>)
    ensures |r| >= 1
  {
    if |s| == 0 then [""]
    else if s[0] == c then [""] + Split(s[1..], c)
    else
      var t := Split(s[1..], c);
      [[s[0]] + t[0]] + t[1..]
  }

  /** The number of occurrences of `c` in `s`. */
  function Count(s: string, c: char): nat
  {
    if |s| == 0 then 0 else (if s[0] == c then 1 else 0) + Count(s[1..], c)
  }

  /** `s.indexOf(sub) !== -1`, as `s.match(/sub/)` tests it for a literal pattern. */
  predicate Contains(s: string, sub: string)
  {
    |sub| <= |s| && (s[..|sub|] == sub || Contains(s[1..], sub))
  }

  /** `s.match(/suffix$/)` for a literal pattern. */
  predicate EndsWith(s: string, suffix: string)
  {
    |suffix| <= |s| && s[|s| - |suffix|..] == suffix
  }

  /** The characters `String.prototype.trim` removes: white space and line terminators. */
  predicate IsJsSpace(ch: char)
  {
    || ch == ' ' || ch == '\t' || ch == '\n' || ch == '\r' || ch == '\U{000B}' || ch == '\U{000C}'
    || ch == '\U{00A0}' || ch == '\U{1680}' || ('\U{2000}' <= ch <= '\U{200A}')
    || ch == '\U{2028}' || ch == '\U{2029}' || ch == '\U{202F}' || ch == '\U{205F}'
    || ch == '\U{3000}' || ch == '\U{FEFF}'
  }

  /** `!s.trim()`: nothing is left once white space is trimmed. */
  predicate IsBlank(s: string)
  {
    forall i :: 0 <= i < |s| ==> IsJsSpace(s[i])
  }

  /** The index of the last `c` in `s`, if any. */
  function LastIndexOf(s: string, c: char): (r: Option<nat>)
    ensures r.None? <==> c !in s
    ensures r.Some? ==> r.value < |s| && s[r.value] == c && c !in s[r.value + 1..]
  {
    if |s| == 0 then None
    else if s[|s| - 1] == c then Some(|s| - 1)
    else
      var r := LastIndexOf(s[..|s| - 1], c);
      assert s == s[..|s| - 1] + [s[|s| - 1]];
      r
  }

  // ---------------------------------------------------------------------------------------
  // Split and Join are inverse to each other.

  lemma {:induction false} SplitPieces(s: string, c: char)
    ensures forall i :: 0 <= i < |Split(s, c)| ==> c !in Split(s, c)[i]
  {
    if |s| > 0 {
      SplitPieces(s[1..], c);
      var t := Split(s[1..], c);
      if s[0] != c {
        var r := Split(s, c);
        forall i | 0 <= i < |r| ensures c !in r[i] {
          if i > 0 {
            assert r[i] == t[i];
          }
        }
      }
    }
  }

  /** Prefixing a character that is not the separator extends the first piece. */
  lemma JoinConsPiece(ch: char, t: seq<string>, c: char)
    requires |t| >= 1
    ensures Join([[ch] + t[0]] + t[1..], c) == [ch] + Join(t, c)
  {
    var r := [[ch] + t[0]] + t[1..];
    if |t| > 1 {
      assert r[1..] == t[1..];
    }
  }

  lemma {:induction false} JoinSplit(s: string, c: char)
    ensures Join(Split(s, c), c) == s
  {
    if |s| > 0 {
      JoinSplit(s[1..], c);
      var t := Split(s[1..], c);
      if s[0] == c {
        assert ([""] + t)[1..] == t;
      } else {
        JoinConsPiece(s[0], t, c);
      }
      assert s == [s[0]] + s[1..];
    }
  }

  lemma {:induction false} JoinAppend(a: seq<string>, b: seq<string>, c: char)
    requires |a| >= 1 && |b| >= 1
    ensures Join(a + b, c) == Join(a, c) + [c] + Join(b, c)
  {
    if |a| == 1 {
      assert (a + b)[1..] == b;
    } else {
      assert (a + b)[1..] == a[1..] + b;
      JoinAppend(a[1..], b, c);
    }
  }

  lemma Assoc(a: string, b: string, c: string)
    ensures a + b + c == a + (b + c)
  {
  }

  /** Joining splits at any inner position into the two joins around it. */
  lemma JoinAt(parts: seq<string>, k: nat, c: char)
    requires 1 <= k < |parts|
    ensures Join(parts, c) == Join(parts[..k], c) + ([c] + Join(parts[k..], c))
  {
    JoinAppend(parts[..k], parts[k..], c);
    assert parts[..k] + parts[k..] == parts;
    Assoc(Join(parts[..k], c), [c], Join(parts[k..], c));
  }

  /** A separator between two strings splits them apart and nothing else. */
  lemma {:induction false} SplitAround(a: string, b: string, c: char)
    ensures Split(a + [c] + b, c) == Split(a, c) + Split(b, c)
  {
    var s := a + [c] + b;
    if |a| == 0 {
      assert s[1..] == b;
    } else {
      assert s[1..] == a[1..] + [c] + b;
      SplitAround(a[1..], b, c);
      if a[0] != c {
        var t := Split(a[1..], c);
        assert Split(s[1..], c)[0] == t[0];
        assert Split(s[1..], c)[1..] == t[1..] + Split(b, c);
      }
    }
  }

  lemma {:induction false} SplitWithout(s: string, c: char)
    requires c !in s
    ensures Split(s, c) == [s]
  {
    if |s| > 0 {
      assert c !in s[1..];
      SplitWithout(s[1..], c);
      assert s == [s[0]] + s[1..];
    }
  }

  /** Splitting a join gives the pieces back, when no piece holds the separator. */
  lemma {:induction false} SplitJoin(parts: seq<string>, c: char)
    requires |parts| >= 1
    requires forall i :: 0 <= i < |parts| ==> c !in parts[i]
    ensures Split(Join(parts, c), c) == parts
  {
    if |parts| == 1 {
      SplitWithout(parts[0], c);
    } else {
      SplitWithout(parts[0], c);
      SplitJoin(parts[1..], c);
      SplitAround(parts[0], Join(parts[1..], c), c);
      assert [parts[0]] + parts[1..] == parts;
    }
  }

  /** There is one more piece than there are separators. */
  lemma {:induction false} SplitCount(s: string, c: char)
    ensures |Split(s, c)| == Count(s, c) + 1
  {
    if |s| > 0 {
      SplitCount(s[1..], c);
    }
  }

  lemma {:induction false} CountAppend(a: string, b: string, c: char)
    ensures Count(a + b, c) == Count(a, c) + Count(b, c)
  {
    if |a| > 0 {
      assert (a + b)[1..] == a[1..] + b;
      CountAppend(a[1..], b, c);
    } else {
      assert a + b == b;
    }
  }

  lemma {:induction false} CountZero(s: string, c: char)
    requires c !in s
    ensures Count(s, c) == 0
  {
    if |s| > 0 {
      CountZero(s[1..], c);
    }
  }

  /** A leading separator leaves an empty first piece. */
  lemma SplitLeading(s: string, c: char)
    requires |s| > 0 && s[0] == c
    ensures Split(s, c)[0] == ""
  {
  }

  /** A trailing separator leaves an empty last piece. */
  lemma SplitTrailing(s: string, c: char)
    requires |s| > 0 && s[|s| - 1] == c
    ensures var r := Split(s, c); r[|r| - 1] == ""
  {
    assert s == s[..|s| - 1] + [c] + "";
    SplitAround(s[..|s| - 1], "", c);
  }

  lemma {:induction false} CountPositive(s: string, c: char)
    requires c in s
    ensures Count(s, c) > 0
  {
    if s[0] != c {
      assert c in s[1..];
      CountPositive(s[1..], c);
    }
  }

  /** The last separator splits off the last piece. */
  lemma SplitAtLast(s: string, c: char)
    requires c in s
    ensures var i := LastIndexOf(s, c).value;
      Split(s, c) == Split(s[..i], c) + [s[i + 1..]]
  {
    var i := LastIndexOf(s, c).value;
    assert s == s[..i] + [c] + s[i + 1..];
    SplitAround(s[..i], s[i + 1..], c);
    SplitWithout(s[i + 1..], c);
  }

  /** The last `c` of `a + b` is the last `c` of `b` when `b` holds one. */
  lemma {:induction false} LastIndexOfAppend(a: string, b: string, c: char)
    requires c in b
    ensures LastIndexOf(a + b, c) == Some(|a| + LastIndexOf(b, c).value)
  {
    if b[|b| - 1] != c {
      var b' := b[..|b| - 1];
      assert b == b' + [b[|b| - 1]];
      assert c in b';
      assert (a + b)[..|a + b| - 1] == a + b';
      LastIndexOfAppend(a, b', c);
    }
  }
}
