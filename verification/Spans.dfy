/** Replacing disjoint spans of a text, and finding the replacements again by search. */
module Spans {
  import opened Prelude
  import opened Search

  /** Text from `start` up to `end` is replaced by `put`. */
  datatype Edit = Edit(start: nat, end: nat, put: string)

  /** The spans lie in the text behind `from`, in order and without overlap. */
  ghost predicate InOrder(text: string, edits: seq<Edit>, from: nat) {
    && from <= |text|
    && (forall i :: 0 <= i < |edits| ==> from <= edits[i].start <= edits[i].end <= |text|)
    && (forall i, j :: 0 <= i < j < |edits| ==> edits[i].end <= edits[j].start)
  }

  /** One pass from left to right: every gap is copied, every span is replaced. */
  function Rewrite(text: string, edits: seq<Edit>, from: nat): string
    requires InOrder(text, edits, from)
  {
    if edits == [] then text[from..]
    else text[from..edits[0].start] + edits[0].put + Rewrite(text, edits[1..], edits[0].end)
  }

  lemma FirstEdit(text: string, edits: seq<Edit>, from: nat)
    requires InOrder(text, edits, from) && edits != []
    ensures var e := edits[0];
            && from <= e.start <= e.end <= |text| && InOrder(text, edits[1..], e.end)
            && Rewrite(text, edits, from) == text[from..e.start] + e.put + Rewrite(text, edits[1..], e.end)
  {}

  lemma OneMoreEdit(text: string, e: Edit, edits: seq<Edit>, from: nat, cut: nat)
    requires from <= e.start <= e.end <= cut && InOrder(text, edits, cut)
    ensures InOrder(text, [e] + edits, from) && InOrder(text, edits, e.end)
    ensures Rewrite(text, [e] + edits, from) == text[from..e.start] + e.put + Rewrite(text, edits, e.end)
  {
    assert ([e] + edits)[1..] == edits;
  }

  /** Splicing one more edit in front of those already made keeps everything behind it. */
  lemma SpliceBefore(text: string, edits: seq<Edit>, cut: nat, e: Edit)
    requires InOrder(text, edits, cut) && e.start <= e.end <= cut
    ensures InOrder(text, [e] + edits, e.start)
    ensures var out := text[..cut] + Rewrite(text, edits, cut);
            out[..e.start] + e.put + out[e.end..] == text[..e.start] + Rewrite(text, [e] + edits, e.start)
  {
    hide InOrder, Rewrite;
    assert cut <= |text| by {
      InOrderBound(text, edits, cut);
    }
    var tail := Rewrite(text, edits, cut);
    RewriteFrom(text, edits, e.end, cut);
    OneMoreEdit(text, e, edits, e.start, cut);
    var out := text[..cut] + tail;
    assert out[..e.start] == text[..e.start] && out[e.end..] == text[e.end..cut] + tail;
    assert text[e.start..e.start] == [];
    assert [] + e.put == e.put;
    assert text[..e.start] + (e.put + (text[e.end..cut] + tail)) == text[..e.start] + e.put + (text[e.end..cut] + tail);
  }

  lemma InOrderBound(text: string, edits: seq<Edit>, from: nat)
    requires InOrder(text, edits, from)
    ensures from <= |text|
  {}

  /** Starting earlier copies what lies between. */
  lemma RewriteFrom(text: string, edits: seq<Edit>, from: nat, cut: nat)
    requires InOrder(text, edits, cut) && from <= cut
    ensures InOrder(text, edits, from) && Rewrite(text, edits, from) == text[from..cut] + Rewrite(text, edits, cut)
  {
    if edits == [] {
      assert text[from..] == text[from..cut] + text[cut..];
    } else {
      var e := edits[0];
      var rest := Rewrite(text, edits[1..], e.end);
      assert Rewrite(text, edits, cut) == text[cut..e.start] + e.put + rest;
      assert Rewrite(text, edits, from) == text[from..e.start] + e.put + rest;
      hide Rewrite;
      assert text[from..e.start] == text[from..cut] + text[cut..e.start];
      Regroup4(text[from..cut], text[cut..e.start], e.put, rest);
    }
  }

  lemma Regroup4<T>(x: seq<T>, y: seq<T>, z: seq<T>, w: seq<T>)
    ensures (x + y) + z + w == x + (y + z + w)
  {}

  /** Where the replacement of edit `k` stands after rewriting. */
  function Place(edits: seq<Edit>, from: nat, k: nat): int
    requires k < |edits|
  {
    if k == 0 then edits[0].start - from
    else edits[0].start - from + |edits[0].put| + Place(edits[1..], edits[0].end, k - 1)
  }

  lemma {:induction false} PlaceHolds(text: string, edits: seq<Edit>, from: nat, k: nat)
    requires InOrder(text, edits, from) && k < |edits|
    ensures var p := Place(edits, from, k); p >= 0 && At(Rewrite(text, edits, from), edits[k].put, p)
    ensures k + 1 < |edits| ==> Place(edits, from, k) + |edits[k].put| <= Place(edits, from, k + 1)
    decreases k
  {
    hide Rewrite, InOrder, At;
    FirstEdit(text, edits, from);
    var front, put, rest := text[from..edits[0].start], edits[0].put, Rewrite(text, edits[1..], edits[0].end);
    assert front + put + rest + "" == front + put + rest;
    if k == 0 {
      AtStart(front, put, rest);
      if |edits| > 1 {
        FirstEdit(text, edits[1..], edits[0].end);
      }
    } else {
      PlaceHolds(text, edits[1..], edits[0].end, k - 1);
      AtInside(front + put, rest, edits[k].put, Place(edits[1..], edits[0].end, k - 1));
    }
  }

  lemma AtStart(front: string, put: string, rest: string)
    ensures At(front + put + rest, put, |front|)
  {
    assert (front + put + rest)[|front|..|front| + |put|] == put;
  }

  lemma AtInside(front: string, rest: string, pat: string, i: nat)
    requires At(rest, pat, i)
    ensures At(front + rest, pat, |front| + i)
  {
    AtWithin(front, rest, "", pat, i);
    assert front + rest + "" == front + rest;
  }

  // ---- Undoing

  /** The edits that put the original spans back. */
  function Undo(text: string, edits: seq<Edit>, from: nat, shift: nat): seq<Edit>
    requires InOrder(text, edits, from)
  {
    if edits == [] then []
    else
      var e := edits[0];
      var at := shift + e.start - from;
      [Edit(at, at + |e.put|, text[e.start..e.end])] + Undo(text, edits[1..], e.end, at + |e.put|)
  }

  lemma FirstUndo(text: string, edits: seq<Edit>, from: nat, shift: nat)
    requires InOrder(text, edits, from) && edits != []
    ensures var e := edits[0];
            var at := shift + (e.start - from);
            from <= e.start <= e.end <= |text| && InOrder(text, edits[1..], e.end)
            && Undo(text, edits, from, shift) ==
               [Edit(at, at + |e.put|, text[e.start..e.end])] + Undo(text, edits[1..], e.end, at + |e.put|)
  {}

  lemma UndoStep(text: string, from: nat, e: Edit, before: string, tail: string, rest: seq<Edit>)
    requires from <= e.start <= e.end <= |text|
    requires var done := before + text[from..e.start] + e.put;
             InOrder(done + tail, rest, |done|) && Rewrite(done + tail, rest, |done|) == text[e.end..]
    ensures var out := before + (text[from..e.start] + e.put + tail);
            var at := |before| + (e.start - from);
            var undo := [Edit(at, at + |e.put|, text[e.start..e.end])] + rest;
            InOrder(out, undo, |before|) && Rewrite(out, undo, |before|) == text[from..]
  {
    hide Rewrite, InOrder;
    var gap := text[from..e.start];
    var done := before + gap + e.put;
    var out := done + tail;
    assert out == before + (gap + e.put + tail);
    OneMoreEdit(out, Edit(|before| + |gap|, |done|, text[e.start..e.end]), rest, |before|, |done|);
    GapOf(before, gap, e.put, tail);
    SplitAt(text, from, e.start, e.end);
  }

  lemma SplitAt(text: string, from: nat, a: nat, b: nat)
    requires from <= a <= b <= |text|
    ensures text[from..] == text[from..a] + text[a..b] + text[b..]
  {}

  lemma NothingToUndo(text: string, from: nat, before: string)
    requires InOrder(text, [], from)
    ensures var out := before + Rewrite(text, [], from);
            Undo(text, [], from, |before|) == [] && InOrder(out, [], |before|) && Rewrite(out, [], |before|) == text[from..]
  {
    assert (before + text[from..])[|before|..] == text[from..];
  }

  lemma {:induction false} UndoRestores(text: string, edits: seq<Edit>, from: nat, before: string)
    requires InOrder(text, edits, from)
    ensures var out := before + Rewrite(text, edits, from);
            var undo := Undo(text, edits, from, |before|);
            InOrder(out, undo, |before|) && Rewrite(out, undo, |before|) == text[from..]
    decreases |edits|
  {
    hide Rewrite, Undo, InOrder;
    if edits == [] {
      NothingToUndo(text, from, before);
    } else {
      FirstEdit(text, edits, from);
      FirstUndo(text, edits, from, |before|);
      var e := edits[0];
      var done := before + text[from..e.start] + e.put;
      UndoRestores(text, edits[1..], e.end, done);
      UndoStep(text, from, e, before, Rewrite(text, edits[1..], e.end), Undo(text, edits[1..], e.end, |done|));
    }
  }

  lemma GapOf(before: string, gap: string, put: string, tail: string)
    ensures (before + gap + put + tail)[|before|..|before| + |gap|] == gap
  {}

  /** Rewriting leaves everything outside the spans intact: putting the original spans back restores the text. */
  lemma RewriteIsUndone(text: string, edits: seq<Edit>)
    requires InOrder(text, edits, 0)
    ensures var out := Rewrite(text, edits, 0);
            var undo := Undo(text, edits, 0, 0);
            InOrder(out, undo, 0) && Rewrite(out, undo, 0) == text
  {
    assert "" + Rewrite(text, edits, 0) == Rewrite(text, edits, 0);
    UndoRestores(text, edits, 0, "");
    assert text[0..] == text;
  }

  // ---- Finding the replacements again

  /** The positions a left-to-right scan reports: the first hit behind the one before, else none. */
  function Located(out: string, puts: seq<string>, scanFrom: nat): (r: seq<Option<nat>>)
    ensures |r| == |puts|
  {
    if puts == [] then []
    else
      var pos := IndexOf(out, puts[0], scanFrom);
      [pos] + Located(out, puts[1..], if pos.Some? then pos.value + |puts[0]| else scanFrom)
  }

  function Puts(edits: seq<Edit>): (r: seq<string>)
    ensures |r| == |edits|
  {
    seq(|edits|, i requires 0 <= i < |edits| => edits[i].put)
  }

  lemma LocatedStep(out: string, puts: seq<string>, k: nat, scanFrom: nat)
    requires k <= |puts|
    ensures k == |puts| ==> Located(out, puts[k..], scanFrom) == []
    ensures k < |puts| ==>
              var pos := IndexOf(out, puts[k], scanFrom);
              Located(out, puts[k..], scanFrom) ==
              [pos] + Located(out, puts[k + 1..], if pos.Some? then pos.value + |puts[k]| else scanFrom)
  {
    hide IndexOf;
    if k < |puts| {
      assert puts[k..][0] == puts[k] && puts[k..][1..] == puts[k + 1..];
    }
  }

  method LocateAll(out: string, puts: seq<string>) returns (found: seq<Option<nat>>)
    ensures found == Located(out, puts, 0)
  {
    hide IndexOf, Located;
    found := [];
    var scanFrom: nat := 0;
    assert puts[0..] == puts;
    for k := 0 to |puts|
      invariant |found| == k && found + Located(out, puts[k..], scanFrom) == Located(out, puts, 0)
    {
      LocatedStep(out, puts, k, scanFrom);
      var pos := IndexOf(out, puts[k], scanFrom);
      if pos.Some? {
        scanFrom := pos.value + |puts[k]|;
      }
      found := found + [pos];
    }
    LocatedStep(out, puts, |puts|, scanFrom);
  }

  /** Every scan succeeds, no hit lies behind the true place, and hits follow each other without overlap. */
  lemma {:induction false} ScanFinds(out: string, puts: seq<string>, places: seq<nat>, scanFrom: nat)
    requires |puts| == |places|
    requires forall k :: 0 <= k < |puts| ==> At(out, puts[k], places[k])
    requires forall i, j :: 0 <= i < j < |puts| && j == i + 1 ==> places[i] + |puts[i]| <= places[j]
    requires places != [] ==> scanFrom <= places[0]
    ensures var found := Located(out, puts, scanFrom);
            && (forall k :: 0 <= k < |puts| ==>
                  found[k].Some? && scanFrom <= found[k].value <= places[k] && At(out, puts[k], found[k].value))
            && (forall i, j :: 0 <= i < j < |puts| ==> found[i].value + |puts[i]| <= found[j].value)
    decreases |puts|
  {
    hide IndexOf, At;
    if puts != [] {
      IndexOfFirst(out, puts[0], scanFrom);
      var pos := IndexOf(out, puts[0], scanFrom);
      assert At(out, puts[0], places[0]);
      ScanFinds(out, puts[1..], places[1..], pos.value + |puts[0]|);
      var found, rest := Located(out, puts, scanFrom), Located(out, puts[1..], pos.value + |puts[0]|);
      assert forall k :: 1 <= k < |puts| ==> found[k] == rest[k - 1] && puts[k] == puts[1..][k - 1] && places[k] == places[1..][k - 1];
    }
  }

  ghost predicate AllFound(text: string, edits: seq<Edit>)
    requires InOrder(text, edits, 0)
  {
    var out := Rewrite(text, edits, 0);
    var found := Located(out, Puts(edits), 0);
    && (forall k :: 0 <= k < |edits| ==>
          found[k].Some? && At(out, edits[k].put, found[k].value) && found[k].value <= Place(edits, 0, k))
    && (forall i, j :: 0 <= i < j < |edits| ==> found[i].value + |edits[i].put| <= found[j].value)
  }

  lemma EveryPutIsFound(text: string, edits: seq<Edit>)
    requires InOrder(text, edits, 0)
    ensures AllFound(text, edits)
  {
    hide InOrder, Rewrite, At, Place;
    var out, n := Rewrite(text, edits, 0), |edits|;
    forall k: nat | k < n
      ensures Place(edits, 0, k) >= 0 && At(out, edits[k].put, Place(edits, 0, k))
      ensures k + 1 < n ==> Place(edits, 0, k) + |edits[k].put| <= Place(edits, 0, k + 1)
    {
      PlaceHolds(text, edits, 0, k);
    }
    var places: seq<nat> := seq(n, k requires 0 <= k < n => Place(edits, 0, k));
    ScanFinds(out, Puts(edits), places, 0);
  }

  // When every hit is the true place

  /** Nothing between the replacement before and the true place of number `k` reads like it. */
  ghost predicate FirstThere(out: string, puts: seq<string>, places: seq<nat>, scanFrom: nat, k: nat)
    requires k < |puts| == |places|
  {
    forall j: nat :: (if k == 0 then scanFrom else places[k - 1] + |puts[k - 1]|) <= j < places[k] ==> !At(out, puts[k], j)
  }

  /** The scan hits all true places if and only if each replacement is the first of its kind behind the one before. */
  lemma {:induction false} ScanIsExact(out: string, puts: seq<string>, places: seq<nat>, scanFrom: nat)
    requires |puts| == |places|
    requires forall k :: 0 <= k < |puts| ==> At(out, puts[k], places[k])
    requires forall i, j :: 0 <= i < j < |puts| && j == i + 1 ==> places[i] + |puts[i]| <= places[j]
    requires places != [] ==> scanFrom <= places[0]
    ensures (forall k :: 0 <= k < |puts| ==> Located(out, puts, scanFrom)[k] == Some(places[k])) <==>
            (forall k :: 0 <= k < |puts| ==> FirstThere(out, puts, places, scanFrom, k))
    decreases |puts|
  {
    hide IndexOf, At;
    if puts != [] {
      IndexOfFirst(out, puts[0], scanFrom);
      var pos := IndexOf(out, puts[0], scanFrom);
      assert At(out, puts[0], places[0]);
      assert pos == Some(places[0]) <==> FirstThere(out, puts, places, scanFrom, 0);
      var found := Located(out, puts, scanFrom);
      assert found[0] == pos;
      if pos == Some(places[0]) {
        var next := places[0] + |puts[0]|;
        ScanIsExact(out, puts[1..], places[1..], next);
        forall k | 1 <= k < |puts|
          ensures found[k] == Located(out, puts[1..], next)[k - 1]
          ensures FirstThere(out, puts, places, scanFrom, k) <==> FirstThere(out, puts[1..], places[1..], next, k - 1)
        {}
        TailHolds(found, Located(out, puts[1..], next), places);
      }
    }
  }

  lemma TailHolds(found: seq<Option<nat>>, rest: seq<Option<nat>>, places: seq<nat>)
    requires |found| == |places| == |rest| + 1 && found[0] == Some(places[0])
    requires forall k :: 1 <= k < |found| ==> found[k] == rest[k - 1]
    ensures (forall k :: 0 <= k < |found| ==> found[k] == Some(places[k])) <==>
            (forall k :: 0 <= k < |rest| ==> rest[k] == Some(places[1..][k]))
  {
    if forall k :: 0 <= k < |found| ==> found[k] == Some(places[k]) {
      forall k | 0 <= k < |rest|
        ensures rest[k] == Some(places[1..][k])
      {
        assert found[k + 1] == Some(places[k + 1]);
      }
    }
  }

  /** The text between the span before and span `k`. */
  function Gap(text: string, edits: seq<Edit>, from: nat, k: nat): string
    requires k < |edits| && InOrder(text, edits, from)
  {
    text[if k == 0 then from else edits[k - 1].end..edits[k].start]
  }

  lemma GapNext(text: string, edits: seq<Edit>, from: nat, k: nat)
    requires 0 < k < |edits| && InOrder(text, edits, from)
    ensures InOrder(text, edits[1..], edits[0].end) && Gap(text, edits, from, k) == Gap(text, edits[1..], edits[0].end, k - 1)
  {}

  /** In the gap before span `k`, followed by its replacement, nothing else reads like that replacement. */
  ghost predicate Clear(text: string, edits: seq<Edit>, from: nat, k: nat)
    requires k < |edits| && InOrder(text, edits, from)
  {
    var gap, put := Gap(text, edits, from, k), edits[k].put;
    forall j: nat :: j < |gap| ==> !At(gap + put, put, j)
  }

  /** What stands in the rewritten text behind replacement `k - 1`: the gap, then replacement `k`. */
  lemma {:induction false} GapHolds(text: string, edits: seq<Edit>, from: nat, k: nat)
    requires InOrder(text, edits, from) && k < |edits|
    ensures var gap := Gap(text, edits, from, k);
            var p := Place(edits, from, k) - |gap|;
            && p == (if k == 0 then 0 else Place(edits, from, k - 1) + |edits[k - 1].put|)
            && p >= 0 && At(Rewrite(text, edits, from), gap + edits[k].put, p)
    decreases k
  {
    hide Rewrite, At, InOrder;
    FirstEdit(text, edits, from);
    var e, tail := edits[0], Rewrite(text, edits[1..], edits[0].end);
    var front := text[from..e.start];
    if k == 0 {
      AtStart("", front + e.put, tail);
      assert "" + (front + e.put) + tail == front + e.put + tail;
    } else {
      GapNext(text, edits, from, k);
      hide Gap;
      GapHolds(text, edits[1..], e.end, k - 1);
      var gap := Gap(text, edits, from, k);
      AtInside(front + e.put, tail, gap + edits[k].put, Place(edits[1..], e.end, k - 1) - |gap|);
    }
  }

  lemma AtOfPart(out: string, part: string, p: nat, pat: string, j: nat)
    requires At(out, part, p) && j + |pat| <= |part|
    ensures At(out, pat, p + j) <==> At(part, pat, j)
  {
    assert out == out[..p] + part + out[p + |part|..];
    AtWithin(out[..p], part, out[p + |part|..], pat, j);
  }

  lemma FirstIsClear(out: string, gap: string, put: string, p: nat)
    requires At(out, gap + put, p)
    ensures (forall j: nat :: p <= j < p + |gap| ==> !At(out, put, j)) <==>
            (forall j: nat :: j < |gap| ==> !At(gap + put, put, j))
  {
    hide At;
    if forall j: nat :: p <= j < p + |gap| ==> !At(out, put, j) {
      forall j: nat | j < |gap|
        ensures !At(gap + put, put, j)
      {
        AtOfPart(out, gap + put, p, put, j);
      }
    }
    if forall j: nat :: j < |gap| ==> !At(gap + put, put, j) {
      forall j: nat | p <= j < p + |gap|
        ensures !At(out, put, j)
      {
        AtOfPart(out, gap + put, p, put, j - p);
      }
    }
  }

  lemma ClearIsFirst(text: string, edits: seq<Edit>, places: seq<nat>, k: nat)
    requires InOrder(text, edits, 0) && |places| == |edits| && k < |edits|
    requires forall i :: 0 <= i < |edits| ==> places[i] == Place(edits, 0, i)
    ensures FirstThere(Rewrite(text, edits, 0), Puts(edits), places, 0, k) <==> Clear(text, edits, 0, k)
  {
    hide Rewrite, At, Place, InOrder, Gap;
    GapHolds(text, edits, 0, k);
    var gap, put := Gap(text, edits, 0, k), edits[k].put;
    var p := places[k] - |gap|;
    assert Puts(edits)[k] == put && (k > 0 ==> Puts(edits)[k - 1] == edits[k - 1].put);
    assert p == if k == 0 then 0 else places[k - 1] + |Puts(edits)[k - 1]|;
    FirstIsClear(Rewrite(text, edits, 0), gap, put, p);
  }

  /** All hits are the places of the replacements if and only if no gap of the text brings one forward. */
  lemma HitsAreExact(text: string, edits: seq<Edit>)
    requires InOrder(text, edits, 0)
    ensures ExactHits(text, edits) <==> forall k :: 0 <= k < |edits| ==> Clear(text, edits, 0, k)
  {
    hide InOrder, Rewrite, At, Place, Clear, FirstThere;
    var out, n := Rewrite(text, edits, 0), |edits|;
    forall k: nat | k < n
      ensures Place(edits, 0, k) >= 0 && At(out, edits[k].put, Place(edits, 0, k))
      ensures k + 1 < n ==> Place(edits, 0, k) + |edits[k].put| <= Place(edits, 0, k + 1)
    {
      PlaceHolds(text, edits, 0, k);
    }
    var places: seq<nat> := seq(n, k requires 0 <= k < n => Place(edits, 0, k));
    ScanIsExact(out, Puts(edits), places, 0);
    forall k: nat | k < n
      ensures FirstThere(out, Puts(edits), places, 0, k) <==> Clear(text, edits, 0, k)
    {
      ClearIsFirst(text, edits, places, k);
    }
    ExactAt(text, edits, places);
  }

  ghost predicate ExactHits(text: string, edits: seq<Edit>)
    requires InOrder(text, edits, 0)
  {
    var found := Located(Rewrite(text, edits, 0), Puts(edits), 0);
    forall k :: 0 <= k < |edits| ==> found[k].Some? && found[k].value == Place(edits, 0, k)
  }

  lemma ExactAt(text: string, edits: seq<Edit>, places: seq<nat>)
    requires InOrder(text, edits, 0) && |places| == |edits| && forall k :: 0 <= k < |edits| ==> places[k] == Place(edits, 0, k)
    ensures ExactHits(text, edits) <==>
            forall k :: 0 <= k < |Puts(edits)| ==> Located(Rewrite(text, edits, 0), Puts(edits), 0)[k] == Some(places[k])
  {
    hide InOrder, Rewrite, Place, Located;
    var found := Located(Rewrite(text, edits, 0), Puts(edits), 0);
    if ExactHits(text, edits) {
      forall k | 0 <= k < |found|
        ensures found[k] == Some(places[k])
      {
        assert found[k].Some? && found[k].value == Place(edits, 0, k);
      }
    }
    if forall k :: 0 <= k < |found| ==> found[k] == Some(places[k]) {
      forall k | 0 <= k < |edits|
        ensures found[k].Some? && found[k].value == Place(edits, 0, k)
      {
        assert found[k] == Some(places[k]);
      }
    }
  }

  // ---- Replacements of equal length

  ghost predicate SameLengths(edits: seq<Edit>) {
    forall k :: 0 <= k < |edits| ==> edits[k].start <= edits[k].end && |edits[k].put| == edits[k].end - edits[k].start
  }

  ghost predicate Outside(edits: seq<Edit>, i: int) {
    forall k :: 0 <= k < |edits| ==> !(edits[k].start <= i < edits[k].end)
  }

  lemma OutsideFirst(edits: seq<Edit>, i: int)
    requires edits != []
    ensures Outside(edits, i) <==> !(edits[0].start <= i < edits[0].end) && Outside(edits[1..], i)
  {
    assert forall k :: 0 < k < |edits| ==> edits[k] == edits[1..][k - 1];
  }

  lemma SameLengthsFirst(edits: seq<Edit>)
    requires SameLengths(edits) && edits != []
    ensures |edits[0].put| == edits[0].end - edits[0].start && SameLengths(edits[1..])
  {}

  lemma {:induction false} PlacesStay(edits: seq<Edit>, from: nat, k: nat)
    requires SameLengths(edits) && k < |edits|
    ensures Place(edits, from, k) == edits[k].start - from
    decreases k
  {
    if k > 0 {
      PlacesStay(edits[1..], edits[0].end, k - 1);
    }
  }

  /** They keep the length, and change the text only inside their spans. */
  lemma {:induction false} RewriteInPlace(text: string, edits: seq<Edit>, from: nat)
    requires InOrder(text, edits, from) && SameLengths(edits)
    ensures |Rewrite(text, edits, from)| == |text| - from
    ensures forall i :: from <= i < |text| && Outside(edits, i) ==> Rewrite(text, edits, from)[i - from] == text[i]
    decreases |edits|
  {
    if edits != [] {
      hide Rewrite, InOrder, SameLengths, Outside;
      FirstEdit(text, edits, from);
      SameLengthsFirst(edits);
      var e, rest := edits[0], edits[1..];
      RewriteInPlace(text, rest, e.end);
      var tail := Rewrite(text, rest, e.end);
      forall i | from <= i < |text| && Outside(edits, i)
        ensures Rewrite(text, edits, from)[i - from] == text[i]
      {
        OutsideFirst(edits, i);
        if i >= e.end {
          assert Rewrite(text, edits, from)[i - from] == tail[i - e.end];
        }
      }
    }
  }
}
