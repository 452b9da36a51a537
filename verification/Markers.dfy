/**
  * Framed markers in a byte string: the scan pairs every begin pattern with the next end pattern behind it.
  */
module Markers {
  import opened Prelude
  import opened Search

  /** The two patterns of a frame. */
  datatype Frame<!T(==)> = Frame(begin: seq<T>, end: seq<T>) {
    predicate Proper() { begin != [] && end != [] }
  }

  /** What lies between the paired patterns, and what follows a begin pattern that no end pattern closes. */
  datatype Scan<!T> = Scan(bodies: seq<seq<T>>, dangling: Option<seq<T>>) {
    /** This scan after one that found `first`. */
    function After(first: seq<seq<T>>): Scan<T> { Scan(first + bodies, dangling) }
  }

  function ScanFrom<T(==)>(f: Frame<T>, s: seq<T>, cursor: nat): Scan<T>
    requires f.Proper()
    decreases |s| - cursor
  {
    if cursor >= |s| then Scan([], None)
    else
      match IndexOf(s, f.begin, cursor)
      case None => Scan([], None)
      case Some(b) =>
        IndexOfFirst(s, f.begin, cursor);
        match IndexOf(s, f.end, b + |f.begin|)
        case None => Scan([], Some(s[b + |f.begin|..]))
        case Some(e) =>
          IndexOfFirst(s, f.end, b + |f.begin|);
          ScanFrom(f, s, e + |f.end|).After([s[b + |f.begin|..e]])
  }

  /** No occurrence of the pattern lies across the border of `x` and `y`. */
  ghost predicate Separate<T>(x: seq<T>, y: seq<T>, pat: seq<T>) {
    forall i: nat :: i < |x| && |x| < i + |pat| ==> !At(x + y, pat, i)
  }

  lemma AtConcat<T>(x: seq<T>, y: seq<T>, pat: seq<T>, i: nat)
    requires pat != []
    ensures i + |pat| <= |x| ==> (At(x + y, pat, i) <==> At(x, pat, i))
    ensures i >= |x| ==> (At(x + y, pat, i) <==> At(y, pat, i - |x|))
    ensures |x| < i + |pat| ==> !At(x, pat, i)
  {
    if i + |pat| <= |x| {
      assert (x + y)[i..i + |pat|] == x[i..i + |pat|];
    }
    if i >= |x| && i + |pat| <= |x| + |y| {
      assert (x + y)[i..i + |pat|] == y[i - |x|..i - |x| + |pat|];
    }
  }

  /** A border byte that cannot lie inside the pattern separates. */
  lemma BorderSeparates<T>(x: seq<T>, y: seq<T>, pat: seq<T>)
    requires (x != [] && x[|x| - 1] !in pat) || (y != [] && forall k :: 1 <= k < |pat| ==> pat[k] != y[0])
    ensures Separate(x, y, pat)
  {
    forall i: nat | i < |x| && |x| < i + |pat|
      ensures !At(x + y, pat, i)
    {
      if i + |pat| <= |x + y| {
        var w := (x + y)[i..i + |pat|];
        assert w[|x| - 1 - i] == x[|x| - 1];
        assert w[|x| - i] == y[0];
      }
    }
  }

  lemma AtParts<T>(x: seq<T>, y: seq<T>, pat: seq<T>)
    requires pat != []
    ensures forall i: nat :: i + |pat| <= |x| ==> (At(x + y, pat, i) <==> At(x, pat, i))
    ensures forall i: nat :: At(y, pat, i) ==> At(x + y, pat, |x| + i)
    ensures forall i: nat :: i >= |x| && At(x + y, pat, i) ==> At(y, pat, i - |x|)
    ensures forall i: nat :: |x| < i + |pat| ==> !At(x, pat, i)
  {
    hide At;
    forall i: nat
      ensures i + |pat| <= |x| ==> (At(x + y, pat, i) <==> At(x, pat, i))
      ensures i >= |x| ==> (At(x + y, pat, i) <==> At(y, pat, i - |x|))
      ensures |x| < i + |pat| ==> !At(x, pat, i)
      ensures At(y, pat, i) ==> At(x + y, pat, |x| + i)
    {
      AtConcat(x, y, pat, i);
      AtConcat(x, y, pat, |x| + i);
    }
  }

  /** A search in a concatenation finds what it finds in the first part, else what it finds in the second. */
  lemma IndexOfConcat<T>(x: seq<T>, y: seq<T>, pat: seq<T>, from: nat)
    requires pat != [] && from <= |x| && Separate(x, y, pat)
    ensures IndexOf(x + y, pat, from) ==
            match IndexOf(x, pat, from)
            case Some(i) => Some(i)
            case None => (match IndexOf(y, pat, 0) case Some(j) => Some(|x| + j) case None => None)
  {
    hide At;
    hide IndexOf;
    AtParts(x, y, pat);
    IndexOfFirst(x, pat, from);
    IndexOfFirst(x + y, pat, from);
    match IndexOf(x, pat, from) {
      case Some(i) =>
        IndexOfIs(x + y, pat, from, i);
      case None =>
        IndexOfFirst(y, pat, 0);
        match IndexOf(y, pat, 0) {
          case Some(j) =>
            IndexOfIs(x + y, pat, from, |x| + j);
          case None =>
        }
    }
  }

  lemma IndexOfBehind<T>(x: seq<T>, y: seq<T>, pat: seq<T>, from: nat)
    requires pat != []
    ensures IndexOf(x + y, pat, |x| + from) == match IndexOf(y, pat, from) case Some(j) => Some(|x| + j) case None => None
  {
    hide At;
    hide IndexOf;
    AtParts(x, y, pat);
    IndexOfFirst(y, pat, from);
    IndexOfFirst(x + y, pat, |x| + from);
    match IndexOf(y, pat, from) {
      case Some(j) =>
        IndexOfIs(x + y, pat, |x| + from, |x| + j);
      case None =>
    }
  }

  /** What lies before the cursor does not matter. */
  lemma {:induction false} ScanBehind<T>(f: Frame<T>, x: seq<T>, y: seq<T>, cursor: nat)
    requires f.Proper()
    ensures ScanFrom(f, x + y, |x| + cursor) == ScanFrom(f, y, cursor)
    decreases |y| - cursor
  {
    hide IndexOf;
    if cursor < |y| {
      IndexOfBehind(x, y, f.begin, cursor);
      var b := IndexOf(y, f.begin, cursor);
      if b.Some? {
        IndexOfFirst(y, f.begin, cursor);
        var body := b.value + |f.begin|;
        IndexOfBehind(x, y, f.end, body);
        var e := IndexOf(y, f.end, body);
        assert (x + y)[|x| + body..] == y[body..];
        if e.Some? {
          IndexOfFirst(y, f.end, body);
          ScanBehind(f, x, y, e.value + |f.end|);
          assert (x + y)[|x| + body..|x| + e.value] == y[body..e.value];
        }
      }
    }
  }

  ghost predicate SeparateFrames<T>(f: Frame<T>, x: seq<T>, y: seq<T>) {
    Separate(x, y, f.begin) && Separate(x, y, f.end)
  }

  /** The scan of `y` behind a part whose scan is `first`: a dangling begin swallows `y` up to its first end pattern. */
  ghost function Continued<T>(f: Frame<T>, first: Scan<T>, y: seq<T>): Scan<T>
    requires f.Proper()
  {
    match first.dangling
    case None => ScanFrom(f, y, 0).After(first.bodies)
    case Some(rest) =>
      match IndexOf(y, f.end, 0)
      case None => Scan(first.bodies, Some(rest + y))
      case Some(e) =>
        IndexOfFirst(y, f.end, 0);
        ScanFrom(f, y, e + |f.end|).After(first.bodies + [rest + y[..e]])
  }

  /** Scanning composes over a border that no pattern crosses. */
  lemma {:induction false} ScanComposes<T>(f: Frame<T>, x: seq<T>, y: seq<T>, cursor: nat)
    requires f.Proper() && SeparateFrames(f, x, y) && cursor <= |x|
    ensures ScanFrom(f, x + y, cursor) == Continued(f, ScanFrom(f, x, cursor), y)
    decreases |x| - cursor
  {
    hide IndexOf;
    hide Separate;
    if cursor == |x| {
      ScanBehind(f, x, y, 0);
    } else {
      IndexOfConcat(x, y, f.begin, cursor);
      var b := IndexOf(x, f.begin, cursor);
      if b.None? {
        SkipToSecond(f, x, y, cursor);
      } else {
        IndexOfFirst(x, f.begin, cursor);
        var body := b.value + |f.begin|;
        IndexOfConcat(x, y, f.end, body);
        var e := IndexOf(x, f.end, body);
        if e.Some? {
          IndexOfFirst(x, f.end, body);
          ScanComposes(f, x, y, e.value + |f.end|);
          assert (x + y)[body..e.value] == x[body..e.value];
          ContinuedAfter(f, [x[body..e.value]], ScanFrom(f, x, e.value + |f.end|), y);
        } else {
          SwallowToEnd(f, x, y, cursor, b.value);
        }
      }
    }
  }

  lemma ContinuedAfter<T>(f: Frame<T>, first: seq<seq<T>>, s: Scan<T>, y: seq<T>)
    requires f.Proper()
    ensures Continued(f, s.After(first), y) == Continued(f, s, y).After(first)
  {
    hide IndexOf, ScanFrom;
    var e := IndexOf(y, f.end, 0);
    if s.dangling.Some? && e.Some? {
      IndexOfFirst(y, f.end, 0);
      var more := [s.dangling.value + y[..e.value]];
      assert (first + s.bodies) + more == first + (s.bodies + more);
    }
  }

  lemma SkipToSecond<T>(f: Frame<T>, x: seq<T>, y: seq<T>, cursor: nat)
    requires f.Proper() && SeparateFrames(f, x, y) && cursor < |x| && IndexOf(x, f.begin, cursor).None?
    ensures ScanFrom(f, x + y, cursor) == ScanFrom(f, y, 0)
  {
    hide IndexOf;
    hide Separate;
    IndexOfConcat(x, y, f.begin, cursor);
    IndexOfFirst(y, f.begin, 0);
    match IndexOf(y, f.begin, 0) {
      case None =>
        assert ScanFrom(f, y, 0) == Scan([], None);
      case Some(b) =>
        var body := b + |f.begin|;
        IndexOfBehind(x, y, f.end, body);
        assert (x + y)[|x| + body..] == y[body..];
        match IndexOf(y, f.end, body) {
          case None =>
          case Some(e) =>
            IndexOfFirst(y, f.end, body);
            ScanBehind(f, x, y, e + |f.end|);
            assert (x + y)[|x| + body..|x| + e] == y[body..e];
        }
    }
  }

  lemma SwallowToEnd<T>(f: Frame<T>, x: seq<T>, y: seq<T>, cursor: nat, b: nat)
    requires f.Proper() && SeparateFrames(f, x, y) && cursor < |x|
    requires IndexOf(x, f.begin, cursor) == Some(b) && b + |f.begin| <= |x| && IndexOf(x, f.end, b + |f.begin|).None?
    ensures ScanFrom(f, x + y, cursor) == Continued(f, Scan([], Some(x[b + |f.begin|..])), y)
  {
    hide IndexOf;
    hide Separate;
    var body := b + |f.begin|;
    IndexOfConcat(x, y, f.begin, cursor);
    IndexOfConcat(x, y, f.end, body);
    assert (x + y)[body..] == x[body..] + y;
    var e := IndexOf(y, f.end, 0);
    if e.Some? {
      IndexOfFirst(y, f.end, 0);
      ScanBehind(f, x, y, e.value + |f.end|);
      assert (x + y)[body..|x| + e.value] == x[body..] + y[..e.value];
    }
  }

  ghost predicate Absent<T>(s: seq<T>, pat: seq<T>) {
    forall i: nat :: !At(s, pat, i)
  }

  /** A part without begin patterns adds nothing to the scan. */
  lemma ScanSkips<T>(f: Frame<T>, x: seq<T>, y: seq<T>)
    requires f.Proper() && SeparateFrames(f, x, y) && Absent(x, f.begin)
    ensures ScanFrom(f, x + y, 0) == ScanFrom(f, y, 0)
  {
    hide Separate;
    IndexOfFirst(x, f.begin, 0);
    if x == [] {
      assert x + y == y;
    } else {
      SkipToSecond(f, x, y, 0);
    }
  }

  /** One frame scans as its body, wherever the scan starts before it. */
  lemma ScanFrame<T>(f: Frame<T>, before: seq<T>, body: seq<T>, after: seq<T>)
    requires f.Proper()
    requires var s := before + f.begin + body + f.end + after;
             && IndexOf(s, f.begin, 0) == Some(|before|)
             && IndexOf(s, f.end, |before| + |f.begin|) == Some(|before| + |f.begin| + |body|)
    ensures ScanFrom(f, before + f.begin + body + f.end + after, 0) == ScanFrom(f, after, 0).After([body])
  {
    hide IndexOf;
    var s := before + f.begin + body + f.end + after;
    var e := |before| + |f.begin| + |body|;
    assert s[|before| + |f.begin|..e] == body;
    ScanBehind(f, before + f.begin + body + f.end, after, 0);
  }
}
