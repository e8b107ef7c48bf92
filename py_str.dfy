/**
 * The Python string operations the core is built on: `sub in s`, `s.find(sub)`,
 * `s.split(sep)` (no maxsplit) and `sep.join(parts)`, with the properties the
 * rest of the model relies on.
 */
module PyStr {

  /** `sub` occurs in `s` starting at index `i`. */
  predicate OccursAt(s: string, sub: string, i: int)
  {
    0 <= i && i + |sub| <= |s| && s[i..i + |sub|] == sub
  }

  /** Python's `sub in s`. */
  predicate Contains(s: string, sub: string)
  {
    exists i :: 0 <= i <= |s| - |sub| && OccursAt(s, sub, i)
  }

  /** Occurrences in `s[1..]` are the occurrences in `s` shifted by one. */
  lemma OccursShift(s: string, sub: string)
    requires |s| > 0
    ensures forall j :: 0 <= j ==> (OccursAt(s[1..], sub, j) <==> OccursAt(s, sub, j + 1))
    ensures forall j :: 1 <= j ==> (OccursAt(s, sub, j) <==> OccursAt(s[1..], sub, j - 1))
  {
    forall j | 0 <= j
      ensures OccursAt(s[1..], sub, j) <==> OccursAt(s, sub, j + 1)
    {
      if 0 <= j && j + |sub| <= |s| - 1 {
        assert s[1..][j..j + |sub|] == s[j + 1..j + 1 + |sub|];
      }
    }
    forall j | 1 <= j
      ensures OccursAt(s, sub, j) <==> OccursAt(s[1..], sub, j - 1)
    {
      assert OccursAt(s[1..], sub, j - 1) <==> OccursAt(s, sub, (j - 1) + 1);
    }
  }

  /** Python's `s.find(sub)`: the lowest index where `sub` occurs, or -1. */
  function Find(s: string, sub: string): (r: int)
    ensures r == -1 || 0 <= r <= |s| - |sub|
    ensures r >= 0 ==> OccursAt(s, sub, r)
    decreases |s|
  {
    if |s| < |sub| then -1
    else if s[..|sub|] == sub then 0
    else
      var k := Find(s[1..], sub);
      if k < 0 then -1
      else
        assert s[1..][k..k + |sub|] == s[k + 1..k + 1 + |sub|];
        k + 1
  }

  /**
   * `s.find(sub)` is -1 exactly when `sub in s` is false, and otherwise no
   * occurrence of `sub` starts before the index it returns.
   */
  lemma {:induction false} FindFirst(s: string, sub: string)
    ensures Find(s, sub) >= 0 <==> Contains(s, sub)
    ensures forall j :: 0 <= j < Find(s, sub) ==> !OccursAt(s, sub, j)
    decreases |s|
  {
    if |s| < |sub| {
    } else if s[..|sub|] == sub {
      assert OccursAt(s, sub, 0);
    } else {
      FindFirst(s[1..], sub);
      OccursShift(s, sub);
      assert !OccursAt(s, sub, 0);
      var k := Find(s[1..], sub);
      if k < 0 {
        forall j | 0 <= j <= |s| - |sub|
          ensures !OccursAt(s, sub, j)
        {
          if j > 0 {
            assert !OccursAt(s[1..], sub, j - 1);
          }
        }
      } else {
        assert OccursAt(s, sub, k + 1);
      }
    }
  }

  /** Python's `s.split(sep)` with no maxsplit; Python refuses an empty separator. */
  function Split(s: string, sep: string): (parts: seq<string>)
    requires sep != ""
    ensures |parts| >= 1
    decreases |s|
  {
    var i := Find(s, sep);
    if i < 0 then [s] else [s[..i]] + Split(s[i + |sep|..], sep)
  }

  /** Python's `sep.join(parts)`. */
  function Join(parts: seq<string>, sep: string): (s: string)
  {
    if |parts| == 0 then ""
    else if |parts| == 1 then parts[0]
    else parts[0] + sep + Join(parts[1..], sep)
  }

  /** The sum of the lengths of `parts`. */
  function TotalLength(parts: seq<string>): nat
  {
    if |parts| == 0 then 0 else |parts[0]| + TotalLength(parts[1..])
  }

  /** Joining n >= 1 parts adds exactly n - 1 separators to the parts' text. */
  lemma {:induction false} JoinLength(parts: seq<string>, sep: string)
    requires |parts| >= 1
    ensures |Join(parts, sep)| == TotalLength(parts) + (|parts| - 1) * |sep|
  {
    if |parts| > 1 {
      JoinLength(parts[1..], sep);
      assert (|parts| - 1) * |sep| == (|parts[1..]| - 1) * |sep| + |sep|;
    }
  }

  /** A piece of `s` that ends before the first occurrence of `sep` holds no `sep`. */
  lemma PrefixBeforeFirst(s: string, sep: string, i: int)
    requires sep != "" && 0 <= i <= |s|
    requires forall j :: 0 <= j < i ==> !OccursAt(s, sep, j)
    ensures !Contains(s[..i], sep)
  {
    forall j | 0 <= j <= i - |sep|
      ensures !OccursAt(s[..i], sep, j)
    {
      if OccursAt(s[..i], sep, j) {
        assert s[..i][j..j + |sep|] == s[j..j + |sep|];
        assert OccursAt(s, sep, j);
      }
    }
  }

  /** `sep.join(s.split(sep)) == s`: splitting loses nothing. */
  lemma {:induction false} SplitJoin(s: string, sep: string)
    requires sep != ""
    ensures Join(Split(s, sep), sep) == s
    decreases |s|
  {
    var i := Find(s, sep);
    var parts := Split(s, sep);
    if i < 0 {
      assert parts == [s];
    } else {
      var rest := s[i + |sep|..];
      var tail := Split(rest, sep);
      SplitJoin(rest, sep);
      assert parts == [s[..i]] + tail;
      JoinCons(s[..i], tail, sep);
      CutAround(s, sep, i);
    }
  }

  /** Joining a first piece in front of at least one more adds one separator. */
  lemma JoinCons(first: string, rest: seq<string>, sep: string)
    requires |rest| >= 1
    ensures Join([first] + rest, sep) == first + sep + Join(rest, sep)
  {
    assert ([first] + rest)[1..] == rest;
  }

  /** An occurrence of `sep` at `i` cuts `s` into the text before it, `sep`, and the text after it. */
  lemma CutAround(s: string, sep: string, i: int)
    requires OccursAt(s, sep, i)
    ensures s == s[..i] + sep + s[i + |sep|..]
  {
    assert s[i..i + |sep|] == sep;
  }

  /** No piece of `s.split(sep)` contains `sep`. */
  lemma {:induction false} SplitPiecesFree(s: string, sep: string)
    requires sep != ""
    ensures forall k :: 0 <= k < |Split(s, sep)| ==> !Contains(Split(s, sep)[k], sep)
    decreases |s|
  {
    var i := Find(s, sep);
    FindFirst(s, sep);
    if i < 0 {
      assert Split(s, sep) == [s];
    } else {
      var rest := s[i + |sep|..];
      SplitPiecesFree(rest, sep);
      PrefixBeforeFirst(s, sep, i);
      var parts := Split(s, sep);
      assert parts == [s[..i]] + Split(rest, sep);
      forall k | 0 <= k < |parts|
        ensures !Contains(parts[k], sep)
      {
        if k > 0 {
          assert parts[k] == Split(rest, sep)[k - 1];
        }
      }
    }
  }

  /** `s.split(sep)` has a second piece exactly when `sep in s`. */
  lemma SplitMany(s: string, sep: string)
    requires sep != ""
    ensures |Split(s, sep)| >= 2 <==> Contains(s, sep)
  {
    FindFirst(s, sep);
  }

  /** Python's `parts[-1]`. */
  function Last<T>(parts: seq<T>): T
    requires |parts| >= 1
  {
    parts[|parts| - 1]
  }

  /** Joining two or more parts puts the separator right before the last one. */
  lemma {:induction false} JoinLast(parts: seq<string>, sep: string)
    requires |parts| >= 2
    ensures Join(parts, sep) == Join(parts[..|parts| - 1], sep) + sep + Last(parts)
  {
    if |parts| > 2 {
      var tail := parts[1..];
      JoinLast(tail, sep);
      assert tail[..|tail| - 1] == parts[..|parts| - 1][1..];
      assert Last(tail) == Last(parts);
    }
  }

  /**
   * `s.split(c)[-1]` is the text after the last `c`: what precedes it is empty
   * or ends in `c`, and it holds no `c`.
   */
  lemma LastPiece(s: string, c: char) returns (head: string)
    ensures s == head + Last(Split(s, [c]))
    ensures head == "" || head[|head| - 1] == c
    ensures c !in Last(Split(s, [c]))
  {
    var parts := Split(s, [c]);
    SplitJoin(s, [c]);
    SplitPiecesFree(s, [c]);
    ContainsChar(Last(parts), c);
    if |parts| == 1 {
      head := "";
    } else {
      JoinLast(parts, [c]);
      head := Join(parts[..|parts| - 1], [c]) + [c];
    }
  }

  /**
   * `s.split(c)[0]` is `s` cut before its first `c`: it holds no `c`, and what
   * follows it is empty or starts with `c`.
   */
  lemma FirstPiece(s: string, c: char) returns (tail: string)
    ensures s == Split(s, [c])[0] + tail
    ensures c !in Split(s, [c])[0]
    ensures tail == "" || tail[0] == c
  {
    var parts := Split(s, [c]);
    SplitJoin(s, [c]);
    SplitPiecesFree(s, [c]);
    ContainsChar(parts[0], c);
    tail := if |parts| == 1 then "" else [c] + Join(parts[1..], [c]);
  }

  /**
   * `s.split(sep)[1]`, which exists when `sep in s`, is the text between the
   * first `sep` and the next `sep` (or the end).
   */
  lemma SecondPiece(s: string, sep: string) returns (head: string, tail: string)
    requires sep != "" && Contains(s, sep)
    ensures |Split(s, sep)| >= 2
    ensures s == head + sep + Split(s, sep)[1] + tail
    ensures !Contains(head, sep) && !Contains(Split(s, sep)[1], sep)
    ensures tail == "" || OccursAt(tail, sep, 0)
  {
    var parts := Split(s, sep);
    SplitMany(s, sep);
    SplitJoin(s, sep);
    SplitPiecesFree(s, sep);
    head := parts[0];
    tail := JoinSecond(parts, sep);
  }

  /** Joining two or more parts: the first, the separator, the second, then the separator and the rest, if any. */
  lemma JoinSecond(parts: seq<string>, sep: string) returns (tail: string)
    requires |parts| >= 2
    ensures Join(parts, sep) == parts[0] + sep + parts[1] + tail
    ensures tail == "" || OccursAt(tail, sep, 0)
  {
    if |parts| == 2 {
      tail := "";
    } else {
      tail := sep + Join(parts[2..], sep);
      assert parts[1..][1..] == parts[2..];
      assert tail[0..|sep|] == sep;
    }
  }

  /** A string can be cut after its last `c` in one place only. */
  lemma AfterLastUnique(s: string, c: char, h1: string, r1: string, h2: string, r2: string)
    requires s == h1 + r1 && s == h2 + r2
    requires (h1 == "" || h1[|h1| - 1] == c) && (h2 == "" || h2[|h2| - 1] == c)
    requires c !in r1 && c !in r2
    ensures h1 == h2 && r1 == r2
  {
    forall k | |h1| <= k < |s|
      ensures s[k] != c
    {
      assert s[k] == r1[k - |h1|];
    }
    forall k | |h2| <= k < |s|
      ensures s[k] != c
    {
      assert s[k] == r2[k - |h2|];
    }
    if h1 != "" {
      assert s[|h1| - 1] == c;
    }
    if h2 != "" {
      assert s[|h2| - 1] == c;
    }
    assert |h1| == |h2|;
    assert h1 == s[..|h1|] && h2 == s[..|h2|];
  }

  /** A string can be cut before its first `c` in one place only. */
  lemma BeforeFirstUnique(s: string, c: char, a1: string, t1: string, a2: string, t2: string)
    requires s == a1 + t1 && s == a2 + t2
    requires c !in a1 && c !in a2
    requires (t1 == "" || t1[0] == c) && (t2 == "" || t2[0] == c)
    ensures a1 == a2 && t1 == t2
  {
    forall k | 0 <= k < |a1|
      ensures s[k] != c
    {
      assert s[k] == a1[k];
    }
    forall k | 0 <= k < |a2|
      ensures s[k] != c
    {
      assert s[k] == a2[k];
    }
    if t1 != "" {
      assert s[|a1|] == c;
    }
    if t2 != "" {
      assert s[|a2|] == c;
    }
    assert |a1| == |a2|;
    assert a1 == s[..|a1|] && a2 == s[..|a2|];
  }

  /**
   * For a separator of two different characters, `h + sep + r` with no `sep`
   * in `h` has its first `sep` right after `h`.
   */
  lemma FirstOccurrence(s: string, sep: string, h: string, r: string)
    requires |sep| == 2 && sep[0] != sep[1]
    requires s == h + sep + r && !Contains(h, sep)
    ensures Find(s, sep) == |h|
  {
    FindFirst(s, sep);
    assert s[|h|..|h| + 2] == sep;
    assert OccursAt(s, sep, |h|);
    forall j | 0 <= j < |h|
      ensures !OccursAt(s, sep, j)
    {
      if j + 2 <= |h| {
        assert s[j..j + 2] == h[j..j + 2];
        assert !OccursAt(h, sep, j);
      } else {
        assert s[j + 1] == sep[0];
        assert s[j..j + 2][1] == s[j + 1];
      }
    }
  }

  /**
   * For a separator of two different characters, the text before the first
   * `sep` (or all of `s`) is determined by `s`.
   */
  lemma BeforeFirstSepUnique(s: string, sep: string, f1: string, t1: string, f2: string, t2: string)
    requires |sep| == 2 && sep[0] != sep[1]
    requires s == f1 + t1 && s == f2 + t2
    requires !Contains(f1, sep) && !Contains(f2, sep)
    requires (t1 == "" || OccursAt(t1, sep, 0)) && (t2 == "" || OccursAt(t2, sep, 0))
    ensures f1 == f2 && t1 == t2
  {
    CutAtFirst(s, sep, f1, t1);
    CutAtFirst(s, sep, f2, t2);
    assert f1 == s[..|f1|] && f2 == s[..|f2|];
  }

  /** Where `f + t` is cut, with `t` empty or starting with `sep`: at the first `sep`, or at the end. */
  lemma CutAtFirst(s: string, sep: string, f: string, t: string)
    requires |sep| == 2 && sep[0] != sep[1]
    requires s == f + t && !Contains(f, sep) && (t == "" || OccursAt(t, sep, 0))
    ensures |f| == if Find(s, sep) < 0 then |s| else Find(s, sep)
  {
    FindFirst(s, sep);
    if t != "" {
      assert t == sep + t[2..];
      FirstOccurrence(s, sep, f, t[2..]);
    } else {
      assert s == f;
    }
  }

  /** An occurrence of `sub` at `i` fixes the character at `i + k`. */
  lemma OccursAtChar(s: string, sub: string, i: int, k: int)
    requires 0 <= k < |sub|
    ensures OccursAt(s, sub, i) ==> s[i + k] == sub[k]
  {
    if OccursAt(s, sub, i) {
      assert s[i..i + |sub|][k] == s[i + k];
    }
  }

  /** `sub` occurs in `s` at `i` when the characters agree one by one. */
  lemma CharsOccur(s: string, sub: string, i: int)
    requires 0 <= i && i + |sub| <= |s|
    requires forall k | 0 <= k < |sub| :: s[i + k] == sub[k]
    ensures OccursAt(s, sub, i) && Contains(s, sub)
  {
    assert s[i..i + |sub|] == sub;
    assert OccursAt(s, sub, i);
  }

  /** Concatenation regrouped; stated once so that callers need not search for it. */
  lemma Regroup(a: string, b: string, c: string, d: string, e: string)
    ensures a + b + (c + d) + e == a + b + c + d + e
  {
  }

  /** A string whose extension holds no `sub` holds no `sub` itself. */
  lemma PrefixFree(a: string, b: string, sub: string)
    requires !Contains(a + b, sub)
    ensures !Contains(a, sub)
  {
    forall i | 0 <= i <= |a| - |sub|
      ensures !OccursAt(a, sub, i)
    {
      assert (a + b)[i..i + |sub|] == a[i..i + |sub|];
      assert !OccursAt(a + b, sub, i);
    }
  }

  /** For a one-character string, Python's `in` is plain membership. */
  lemma ContainsChar(s: string, c: char)
    ensures Contains(s, [c]) <==> c in s
  {
    if c in s {
      var i :| 0 <= i < |s| && s[i] == c;
      assert OccursAt(s, [c], i);
    }
    if Contains(s, [c]) {
      var i :| 0 <= i <= |s| - 1 && OccursAt(s, [c], i);
      assert s[i] == s[i..i + 1][0];
    }
  }

  /** Splitting on a character that `a` lacks peels `a` off as the first piece. */
  lemma SplitCons(a: string, c: char, b: string)
    requires c !in a
    ensures Split(a + [c] + b, [c]) == [a] + Split(b, [c])
  {
    var s := a + [c] + b;
    assert OccursAt(s, [c], |a|);
    var i := Find(s, [c]);
    FindFirst(s, [c]);
    forall j | 0 <= j < |a|
      ensures !OccursAt(s, [c], j)
    {
      assert s[j] == a[j];
      assert s[j..j + 1] == [s[j]];
    }
    assert i == |a|;
    assert s[..i] == a;
    assert s[i + 1..] == b;
  }

  /**
   * `sep.join(parts).split(sep) == parts` for a one-character separator that
   * no part contains: joining loses nothing either.
   */
  lemma {:induction false} JoinSplit(parts: seq<string>, c: char)
    requires |parts| >= 1
    requires forall k :: 0 <= k < |parts| ==> c !in parts[k]
    ensures Split(Join(parts, [c]), [c]) == parts
  {
    if |parts| == 1 {
      ContainsChar(parts[0], c);
      FindFirst(parts[0], [c]);
      assert Find(parts[0], [c]) < 0;
    } else {
      JoinSplit(parts[1..], c);
      SplitCons(parts[0], c, Join(parts[1..], [c]));
      assert [parts[0]] + parts[1..] == parts;
    }
  }
}
