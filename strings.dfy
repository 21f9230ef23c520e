/**
 * The few Python string operations the repository relies on, with the
 * semantics of Python 2: `in`, `startswith`, `endswith`, `partition` (for
 * non-empty separators, the only ones used; Python raises `ValueError` for
 * an empty one), `split(c)`, `"%d" % n`, and the tail of `os.path.split`.
 */
module Strings {
  import opened Wrappers

  /** `pat` occurs in `s` starting at index `i`. */
  predicate OccursAt(s: string, pat: string, i: int)
  {
    0 <= i && i + |pat| <= |s| && s[i..i + |pat|] == pat
  }

  /** Python's `pat in s`. */
  predicate Contains(s: string, pat: string)
  {
    exists i :: 0 <= i <= |s| && OccursAt(s, pat, i)
  }

  /** Python's `s.startswith(pre)`. */
  predicate StartsWith(s: string, pre: string)
  {
    |pre| <= |s| && s[..|pre|] == pre
  }

  /** Python's `s.endswith(suf)`. */
  predicate EndsWith(s: string, suf: string)
  {
    |suf| <= |s| && s[|s| - |suf|..] == suf
  }

  /** A suffix of a suffix is a suffix. */
  lemma EndsWithTrans(s: string, t: string, u: string)
    requires EndsWith(s, t) && EndsWith(t, u)
    ensures EndsWith(s, u)
  {
    assert s[|s| - |u|..] == s[|s| - |t|..][|t| - |u|..];
  }

  /** What is appended last is a suffix. */
  lemma EndsWithAppended(h: string, t: string)
    ensures EndsWith(h + t, t)
  {
    assert (h + t)[|h|..] == t;
  }

  /** For a single character, `[c] in s` is plain membership. */
  lemma ContainsChar(s: string, c: char)
    ensures Contains(s, [c]) <==> c in s
  {
    if c in s {
      var i :| 0 <= i < |s| && s[i] == c;
      assert s[i..i + 1] == [c];
      assert OccursAt(s, [c], i);
    }
    if Contains(s, [c]) {
      var i :| 0 <= i <= |s| && OccursAt(s, [c], i);
      assert s[i..i + 1] == [c];
      assert s[i] == s[i..i + 1][0];
    }
  }

  /** A pattern whose first character is absent does not occur. */
  lemma FirstCharAbsent(s: string, pat: string)
    requires pat != [] && pat[0] !in s
    ensures !Contains(s, pat)
  {
    forall i | 0 <= i <= |s|
      ensures !OccursAt(s, pat, i)
    {
      if i + |pat| <= |s| {
        assert s[i..i + |pat|][0] == s[i];
      }
    }
  }

  /** The first index at or after `k` where `pat` occurs in `s`. */
  function FindFrom(s: string, pat: string, k: nat): (r: Option<nat>)
    decreases |s| - k
    ensures r.Some? ==> k <= r.value && OccursAt(s, pat, r.value)
    ensures forall j :: k <= j && (r.None? || j < r.value) ==> !OccursAt(s, pat, j)
  {
    if k + |pat| > |s| then None
    else if s[k..k + |pat|] == pat then Some(k)
    else FindFrom(s, pat, k + 1)
  }

  /** Python's `s.find(pat)`, with `None` for -1. */
  function Find(s: string, pat: string): (r: Option<nat>)
    ensures r.Some? <==> Contains(s, pat)
    ensures r.Some? ==> OccursAt(s, pat, r.value)
    ensures r.Some? ==> forall j :: 0 <= j < r.value ==> !OccursAt(s, pat, j)
  {
    FindFrom(s, pat, 0)
  }

  /** The result of Python's `s.partition(sep)`; `found` is `x == sep`. */
  datatype Parts = Parts(before: string, found: bool, after: string)

  /** Python's `s.partition(sep)`: split around the FIRST occurrence of `sep`. */
  function Partition(s: string, sep: string): (p: Parts)
    ensures p.found <==> Contains(s, sep)
    ensures p.found ==> s == p.before + sep + p.after
    ensures p.found ==> forall j :: 0 <= j < |p.before| ==> !OccursAt(s, sep, j)
    ensures !p.found ==> p.before == s && p.after == ""
  {
    match Find(s, sep)
    case None => Parts(s, false, "")
    case Some(i) =>
      assert s == s[..i] + sep + s[i + |sep|..];
      Parts(s[..i], true, s[i + |sep|..])
  }

  /** When `sep` does not occur before the end of `x`, partitioning `x + sep + y` gives back `x` and `y`. */
  lemma PartitionFirst(x: string, sep: string, y: string)
    requires forall j :: 0 <= j < |x| ==> !OccursAt(x + sep + y, sep, j)
    ensures Partition(x + sep + y, sep) == Parts(x, true, y)
  {
    var s := x + sep + y;
    assert s[|x|..|x| + |sep|] == sep;
    assert OccursAt(s, sep, |x|);
    var i := Find(s, sep).value;
    assert i == |x|;
    assert s[..i] == x;
    assert s[i + |sep|..] == y;
  }

  /**
   * A separator of one or two characters that does not occur in `x` occurs
   * in `x + sep + y` before `|x|` only by straddling the end of `x`, which
   * needs `sep` to repeat its first character (as `..` does) and `x` to end
   * with it.
   */
  lemma NoEarlyOccurrence(x: string, sep: string, y: string)
    requires |sep| == 1 || |sep| == 2
    requires !Contains(x, sep)
    requires |sep| == 2 && |x| > 0 && x[|x| - 1] == sep[0] ==> sep[1] != sep[0]
    ensures forall j :: 0 <= j < |x| ==> !OccursAt(x + sep + y, sep, j)
  {
    var s := x + sep + y;
    forall j | 0 <= j < |x|
      ensures !OccursAt(s, sep, j)
    {
      if j + |sep| <= |x| {
        assert s[j..j + |sep|] == x[j..j + |sep|];
        assert !OccursAt(x, sep, j);
      } else {
        assert j == |x| - 1 && |sep| == 2;
        assert s[j] == x[|x| - 1] && s[j + 1] == sep[0];
      }
    }
  }

  /** Python's `s.split(c)`: the pieces between the occurrences of `c`, never an empty list. */
  function Split(s: string, c: char): (parts: seq<string>)
    decreases |s|
    ensures |parts| >= 1
    ensures forall i :: 0 <= i < |parts| ==> c !in parts[i]
  {
    if s == [] then [""]
    else if s[0] == c then [""] + Split(s[1..], c)
    else
      var rest := Split(s[1..], c);
      [[s[0]] + rest[0]] + rest[1..]
  }

  /** Python's `c.join(parts)` for a one-character separator. */
  function Join(parts: seq<string>, c: char): string
  {
    if |parts| == 0 then ""
    else if |parts| == 1 then parts[0]
    else parts[0] + [c] + Join(parts[1..], c)
  }

  /** Joining the pieces of a split gives back the string. */
  lemma {:induction false} JoinSplit(s: string, c: char)
    ensures Join(Split(s, c), c) == s
  {
    if s == [] {
    } else if s[0] == c {
      JoinSplit(s[1..], c);
      assert s == [c] + s[1..];
    } else {
      var rest := Split(s[1..], c);
      JoinSplit(s[1..], c);
      if |rest| == 1 {
        assert s == [s[0]] + s[1..];
      } else {
        assert Join(rest, c) == rest[0] + [c] + Join(rest[1..], c);
        assert s == [s[0]] + s[1..];
      }
    }
  }

  /** Splitting `x + t` where `x` holds no separator glues `x` onto the first piece of `t`. */
  lemma {:induction false} SplitPrefix(x: string, t: string, c: char)
    requires c !in x
    ensures Split(x + t, c) == [x + Split(t, c)[0]] + Split(t, c)[1..]
  {
    if x == [] {
      var ps := Split(t, c);
      assert x + t == t && x + ps[0] == ps[0];
      assert ps == [ps[0]] + ps[1..];
    } else {
      SplitPrefix(x[1..], t, c);
      assert (x + t)[0] == x[0];
      assert (x + t)[1..] == x[1..] + t;
      var rest := Split(x[1..] + t, c);
      assert Split(x + t, c) == [[x[0]] + rest[0]] + rest[1..];
      assert [x[0]] + (x[1..] + Split(t, c)[0]) == x + Split(t, c)[0];
    }
  }

  /** Splitting a join of separator-free pieces gives back the pieces. */
  lemma {:induction false} SplitJoin(parts: seq<string>, c: char)
    requires |parts| >= 1
    requires forall i :: 0 <= i < |parts| ==> c !in parts[i]
    ensures Split(Join(parts, c), c) == parts
  {
    if |parts| == 1 {
      SplitPrefix(parts[0], "", c);
      assert parts[0] + "" == parts[0];
    } else {
      SplitJoin(parts[1..], c);
      var t := [c] + Join(parts[1..], c);
      assert Join(parts, c) == parts[0] + t;
      SplitPrefix(parts[0], t, c);
      assert t[0] == c && t[1..] == Join(parts[1..], c);
      assert Split(t, c) == [""] + parts[1..];
      assert parts[0] + "" == parts[0];
    }
  }

  /** A split has a second piece exactly when the separator occurs. */
  lemma {:induction false} SplitHasTwoPieces(s: string, c: char)
    ensures |Split(s, c)| >= 2 <==> c in s
  {
    if s != [] && s[0] != c {
      SplitHasTwoPieces(s[1..], c);
      assert c in s <==> c in s[1..];
    }
  }

  /** A string is its first piece, then `c` and the join of the other pieces when there are some. */
  lemma SplitFirstPiece(s: string, c: char)
    ensures |Split(s, c)| == 1 ==> s == Split(s, c)[0]
    ensures |Split(s, c)| >= 2 ==> s == Split(s, c)[0] + [c] + Join(Split(s, c)[1..], c)
  {
    JoinSplit(s, c);
  }

  /** The text after the last `c` in `s`: the tail of Python's `os.path.split` for `c == '/'`. */
  function AfterLast(s: string, c: char): (r: string)
    ensures c !in r && EndsWith(s, r)
    ensures |r| < |s| ==> s[|s| - |r| - 1] == c
  {
    if s == [] then []
    else if s[|s| - 1] == c then []
    else
      var r := AfterLast(s[..|s| - 1], c) + [s[|s| - 1]];
      assert s[|s| - |r|..] == s[..|s| - 1][|s| - |r|..] + [s[|s| - 1]];
      r
  }

  /** The text after the last `c` is exactly what follows a `c` that no later `c` follows. */
  lemma {:induction false} AfterLastOfJoin(h: string, t: string, c: char)
    requires c !in t
    ensures AfterLast(h + [c] + t, c) == t
    ensures AfterLast(t, c) == t
  {
    if t != [] {
      var s := h + [c] + t;
      var tp := t[..|t| - 1];
      AfterLastOfJoin(h, tp, c);
      assert s[..|s| - 1] == h + [c] + tp;
      assert t == tp + [t[|t| - 1]];
    }
  }

  /** The last piece of `s.split(c)` is the text after the last `c`. */
  lemma {:induction false} LastPieceIsAfterLast(s: string, c: char)
    ensures Split(s, c)[|Split(s, c)| - 1] == AfterLast(s, c)
  {
    var ps := Split(s, c);
    JoinSplit(s, c);
    if |ps| == 1 {
      AfterLastOfJoin([], ps[0], c);
    } else {
      var h := Join(ps[..|ps| - 1], c);
      JoinLast(ps, c);
      AfterLastOfJoin(h, ps[|ps| - 1], c);
    }
  }

  /** Joining peels off the last piece as well as the first. */
  lemma {:induction false} JoinLast(ps: seq<string>, c: char)
    requires |ps| >= 2
    ensures Join(ps, c) == Join(ps[..|ps| - 1], c) + [c] + ps[|ps| - 1]
  {
    if |ps| > 2 {
      JoinLast(ps[1..], c);
      assert ps[1..][..|ps| - 2] == ps[..|ps| - 1][1..];
    }
  }

  /** Python 2's `os.path.join(a, b)`. */
  function JoinPath(a: string, b: string): string
  {
    if StartsWith(b, "/") then b
    else if a == "" || EndsWith(a, "/") then a + b
    else a + "/" + b
  }

  /** The character of a decimal digit. */
  function Digit(d: nat): char
    requires d < 10
  {
    (d + '0' as int) as char
  }

  predicate IsDigits(s: string)
  {
    forall i :: 0 <= i < |s| ==> '0' <= s[i] <= '9'
  }

  /** Python's `"%d" % n` (and `str(n)`) for a natural number. */
  function Decimal(n: nat): (s: string)
    ensures |s| >= 1 && IsDigits(s)
  {
    if n < 10 then [Digit(n)] else Decimal(n / 10) + [Digit(n % 10)]
  }

  /** Reads a string of decimal digits back as a number, as Python's `int(s)` does. */
  function ParseDecimal(s: string): nat
    requires IsDigits(s)
  {
    if s == [] then 0
    else ParseDecimal(s[..|s| - 1]) * 10 + (s[|s| - 1] as int - '0' as int)
  }

  /** `%d` formatting is undone by parsing, so distinct numbers print distinctly. */
  lemma {:induction false} ParseDecimalInverse(n: nat)
    ensures ParseDecimal(Decimal(n)) == n
  {
    if n >= 10 {
      ParseDecimalInverse(n / 10);
      var s := Decimal(n);
      assert s[..|s| - 1] == Decimal(n / 10);
    }
  }

  lemma DecimalInjective(m: nat, n: nat)
    ensures Decimal(m) == Decimal(n) ==> m == n
  {
    ParseDecimalInverse(m);
    ParseDecimalInverse(n);
  }

  /** Drops the leading blanks of a line, as the shell does when it reads it. */
  function TrimLeft(s: string): (r: string)
    ensures r == [] || r[0] != ' '
    ensures EndsWith(s, r)
  {
    if s != [] && s[0] == ' ' then
      var r := TrimLeft(s[1..]);
      EndsWithTail(s, r);
      r
    else s
  }

  /** A suffix of the tail is a suffix. */
  lemma EndsWithTail(s: string, r: string)
    requires s != [] && EndsWith(s[1..], r)
    ensures EndsWith(s, r)
  {
    assert s[|s| - |r|..] == s[1..][|s| - 1 - |r|..];
  }

  lemma {:induction false} TrimLeftBlanks(k: nat, t: string)
    requires t == [] || t[0] != ' '
    ensures TrimLeft(Blanks(k) + t) == t
  {
    if k > 0 {
      var s := Blanks(k) + t;
      assert Blanks(k) == " " + Blanks(k - 1);
      assert s == " " + (Blanks(k - 1) + t);
      TrimLeftBlanks(k - 1, t);
    }
  }

  function Blanks(k: nat): (r: string)
    ensures |r| == k
    ensures forall i :: 0 <= i < k ==> r[i] == ' '
  {
    if k == 0 then "" else " " + Blanks(k - 1)
  }
}
