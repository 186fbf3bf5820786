/** A string builder over visible cells, with the doubling repetition of the diagram code. */
module TextBuilder {
  function Repeat(s: string, n: nat): string {
    if n == 0 then "" else Repeat(s, n - 1) + s
  }

  /** n cells that show c; none when n is negative. */
  function Cells(c: char, n: int): (cells: string)
    ensures |cells| == (if n < 0 then 0 else n) && forall i | 0 <= i < |cells| :: cells[i] == c
  {
    if n < 0 then "" else seq(n, i => c)
  }

  /** Each cell of t equals the cell p places before it. */
  ghost predicate Periodic(t: string, p: nat) {
    forall i | p <= i < |t| :: t[i] == t[i - p]
  }

  lemma {:induction false} RepeatLength(s: string, n: nat)
    ensures |Repeat(s, n)| == |s| * n
  {
    if n > 0 {
      RepeatLength(s, n - 1);
      assert |s| * n == |s| * (n - 1) + |s|;
    }
  }

  lemma {:induction false} RepeatCell(c: char, n: nat)
    ensures Repeat([c], n) == Cells(c, n)
  {
    if n > 0 {
      RepeatCell(c, n - 1);
    }
  }

  lemma {:induction false} RepeatIsPeriodic(s: string, n: nat)
    requires n > 0
    ensures s <= Repeat(s, n) && Periodic(Repeat(s, n), |s|)
  {
    var t := Repeat(s, n - 1);
    if n == 1 {
      assert t + s == s;
    } else {
      RepeatIsPeriodic(s, n - 1);
      var u := Repeat(s, n - 2);
      assert t == u + s;
      forall i | |s| <= i < |t + s|
        ensures (t + s)[i] == (t + s)[i - |s|]
      {
        if i >= |t| {
          assert (t + s)[i] == s[i - |t|];
        }
      }
    }
  }

  /** A prefix that is also a period of t may be followed by any prefix of itself that fits. */
  lemma ExtendByPeriod(t: string, w: string, more: nat)
    requires w <= t && Periodic(t, |w|) && more <= |w| && |w| + more <= |t|
    ensures w + w[..more] == t[..|w| + more]
  {
    forall i | 0 <= i < |w| + more
      ensures (w + w[..more])[i] == t[i]
    {
      if i >= |w| {
        assert t[i] == t[i - |w|];
      }
    }
  }

  lemma PeriodDoubles(t: string, p: nat)
    requires Periodic(t, p)
    ensures Periodic(t, p + p)
  {
    forall i | p + p <= i < |t|
      ensures t[i] == t[i - (p + p)]
    {
      assert t[i] == t[i - p];
      assert t[i - p] == t[i - p - p];
    }
  }

  lemma Regroup(t: string, a: string, b: string)
    ensures t + a + b == t + (a + b)
  {
  }

  lemma Regroup3(t: string, a: string, b: string, c: string)
    ensures t + a + b + c == t + (a + b + c)
  {
    Regroup(t, a, b);
    Regroup(t, a + b, c);
  }

  lemma Regroup4(t: string, a: string, b: string, c: string, d: string)
    ensures t + a + b + c + d == t + (a + b + c + d)
  {
    Regroup3(t, a, b, c);
    Regroup(t, a + b + c, d);
  }

  lemma Regroup6(t: string, a: string, b: string, c: string, d: string, e: string, f: string)
    ensures t + a + b + c + d + e + f == t + (a + b + c + d + e + f)
  {
    Regroup4(t, a, b, c, d);
    Regroup(t, a + b + c + d, e);
    Regroup(t, a + b + c + d + e, f);
  }

  /** The first n parts in a row. */
  function Concat(parts: seq<string>, n: nat): string
    requires n <= |parts|
  {
    if n == 0 then "" else Concat(parts, n - 1) + parts[n - 1]
  }

  lemma NextPart(before: string, parts: seq<string>, n: nat)
    requires n < |parts|
    ensures before + Concat(parts, n) + parts[n] == before + Concat(parts, n + 1)
  {
    Regroup(before, Concat(parts, n), parts[n]);
  }

  /** Later parts do not move earlier ones. */
  lemma {:induction false} PartsStay(parts: seq<string>, n: nat, i: nat)
    requires i < n <= |parts|
    ensures Concat(parts, i) + parts[i] <= Concat(parts, n)
  {
    if i < n - 1 {
      PartsStay(parts, n - 1, i);
    }
  }

  lemma CellOfPart(parts: seq<string>, i: nat, o: nat)
    requires i < |parts| && o < |parts[i]|
    ensures |Concat(parts, i)| + o < |Concat(parts, |parts|)|
    ensures Concat(parts, |parts|)[|Concat(parts, i)| + o] == parts[i][o]
  {
    PartsStay(parts, |parts|, i);
    assert (Concat(parts, i) + parts[i])[|Concat(parts, i)| + o] == parts[i][o];
  }

  lemma SliceOfPart(parts: seq<string>, i: nat, from: nat, to: nat)
    requires i < |parts| && from <= to <= |parts[i]|
    ensures |Concat(parts, i)| + to <= |Concat(parts, |parts|)|
    ensures
      var start := |Concat(parts, i)|;
      Concat(parts, |parts|)[start + from..start + to] == parts[i][from..to]
  {
    PartsStay(parts, |parts|, i);
    forall o | from <= o < to {
      CellOfPart(parts, i, o);
    }
  }

  class Builder {
    var contents: string

    constructor ()
      ensures contents == ""
    {
      contents := "";
    }

    method WriteString(s: string)
      modifies this
      ensures contents == old(contents) + s
    {
      contents := contents + s;
    }

    /** A negative count is a panic. */
    method WriteRepeat(s: string, count: int)
      requires count >= 0
      modifies this
      ensures contents == old(contents) + Repeat(s, count)
    {
      if count == 0 {
        return;
      }
      ghost var before, target := contents, Repeat(s, count);
      var n := |s| * count;
      RepeatLength(s, count);
      RepeatIsPeriodic(s, count);
      var origLen := |contents|;
      var on := n + origLen;
      contents := contents + s;
      ghost var w := s;
      while |contents| < on
        invariant contents == before + w && w <= target && Periodic(target, |w|)
        decreases on - |contents|
      {
        assert contents[origLen..] == w;
        if |contents| - origLen <= n / 2 {
          ExtendByPeriod(target, w, |w|);
          PeriodDoubles(target, |w|);
          contents := contents + contents[origLen..];
          w := w + w;
        } else {
          ExtendByPeriod(target, w, n - |w|);
          contents := contents + contents[origLen..][..on - |contents|];
          w := target;
          break;
        }
      }
    }
  }
}
