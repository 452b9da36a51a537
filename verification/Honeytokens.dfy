/**
  * Honeytokens: some of the sensitive values found in a text are replaced by fake ones, and each fake value is
  * recorded with a position in the rewritten text.
  */
module Honeytokens {
  import opened Bytes
  import opened Decimals
  import opened KeyedBits
  import opened Members
  import opened Messages
  import opened Prelude
  import opened Ranking
  import opened Search
  import opened Sorting
  import opened Spans

  datatype Kind = Email | Phone | Amount | Percent | Date | Org

  /** One match of a pattern: the text from `start` up to `end`. */
  datatype RawMatch = RawMatch(kind: Kind, start: nat, end: nat, text: string)

  datatype Replacement = Replacement(m: RawMatch, fake: string, hash: string)

  /** A position of -1 means not found. */
  datatype Token = Token(kind: Kind, fakeValue: string, originalHash: string, position: int)

  /** The keyed hash, by secret and message, as bytes and in hex; and the fake value of a kind that a digest gives. */
  datatype Hashes = Hashes(mac: (string, string) -> Bytes, hex: (string, string) -> string, fake: (Kind, Bytes) -> string)

  datatype Options = Options(secret: string, clientId: string, maxTokens: Option<real>, density: Option<real>)

  datatype Failure = SecretTooShort | ClientIdRequired

  datatype Injection = Injection(text: string, tokens: seq<Token>)

  ghost predicate WellFound(text: string, found: seq<RawMatch>) {
    forall i :: 0 <= i < |found| ==>
      found[i].start < found[i].end <= |text| && found[i].text == text[found[i].start..found[i].end]
  }

  // ---- Overlaps

  /** Earlier matches first, longer ones first among those with the same start. */
  predicate Before(a: (nat, int), b: (nat, int)) { a.0 < b.0 || (a.0 == b.0 && a.1 >= b.1) }

  function SpanOf(): RawMatch -> (nat, int) { (m: RawMatch) => (m.start, m.end - m.start) }

  function ByStart(found: seq<RawMatch>): seq<RawMatch> { Sort(Before, SpanOf(), found) }

  /** The matches that start at or behind the end of the last one kept. */
  function Kept(ms: seq<RawMatch>, cursor: int): seq<RawMatch> {
    if ms == [] then []
    else if ms[0].start >= cursor then [ms[0]] + Kept(ms[1..], ms[0].end)
    else Kept(ms[1..], cursor)
  }

  method ResolveOverlaps(ms: seq<RawMatch>) returns (kept: seq<RawMatch>)
    ensures kept == Kept(ms, -1)
  {
    kept := [];
    var cursor: int := -1;
    assert ms[0..] == ms;
    for i := 0 to |ms|
      invariant kept + Kept(ms[i..], cursor) == Kept(ms, -1)
    {
      var m := ms[i];
      assert ms[i..][1..] == ms[i + 1..];
      if m.start >= cursor {
        assert kept + ([m] + Kept(ms[i + 1..], m.end)) == (kept + [m]) + Kept(ms[i + 1..], m.end);
        kept := kept + [m];
        cursor := m.end;
      }
    }
    assert ms[|ms|..] == [];
  }

  predicate Overlap(a: RawMatch, b: RawMatch) { a.start < b.end && b.start < a.end }

  ghost predicate Disjoint(kept: seq<RawMatch>, cursor: int) {
    && (forall i :: 0 <= i < |kept| ==> cursor <= kept[i].start)
    && (forall i, j :: 0 <= i < j < |kept| ==> kept[i].end <= kept[j].start)
  }

  ghost predicate Proper(ms: seq<RawMatch>) { forall i :: 0 <= i < |ms| ==> ms[i].start < ms[i].end }

  /**
    * Kept matches are disjoint and in order; every match that is dropped overlaps a kept one; and of the matches that
    * start where a kept one starts, none is longer.
    */
  ghost predicate Resolves(ms: seq<RawMatch>, kept: seq<RawMatch>, cursor: int) {
    && Disjoint(kept, cursor)
    && (forall k :: k in kept ==> k in ms)
    && (forall m :: m in ms && m.start >= cursor && m !in kept ==> exists k :: k in kept && k.start <= m.start && Overlap(k, m))
    && (forall k, m :: k in kept && m in ms && m.start == k.start ==> m.end <= k.end)
  }

  lemma {:induction false} KeptResolves(ms: seq<RawMatch>, cursor: int)
    requires Proper(ms) && Sorted(Before, SpanOf(), ms)
    ensures Resolves(ms, Kept(ms, cursor), cursor)
    decreases |ms|
  {
    if ms != [] {
      var first, rest := ms[0], ms[1..];
      assert ms == [first] + rest;
      SortedTail(ms);
      forall m | m in rest
        ensures first.start <= m.start && (m.start == first.start ==> m.end <= first.end) && m.start < m.end
      {
        FirstIsLeast(ms, m);
      }
      if first.start >= cursor {
        KeptResolves(rest, first.end);
        KeepFirst(first, rest, Kept(rest, first.end), cursor);
      } else {
        KeptResolves(rest, cursor);
      }
    }
  }

  lemma SortedTail(ms: seq<RawMatch>)
    requires ms != [] && Proper(ms) && Sorted(Before, SpanOf(), ms)
    ensures Proper(ms[1..]) && Sorted(Before, SpanOf(), ms[1..])
  {}

  lemma FirstIsLeast(ms: seq<RawMatch>, m: RawMatch)
    requires ms != [] && Proper(ms) && Sorted(Before, SpanOf(), ms) && m in ms[1..]
    ensures ms[0].start <= m.start && (m.start == ms[0].start ==> m.end <= ms[0].end) && m.start < m.end
  {
    var j :| 0 <= j < |ms[1..]| && ms[1..][j] == m;
    assert Before(SpanOf()(ms[0]), SpanOf()(ms[j + 1]));
  }

  lemma KeepFirst(first: RawMatch, rest: seq<RawMatch>, kept: seq<RawMatch>, cursor: int)
    requires first.start >= cursor && first.start < first.end && Resolves(rest, kept, first.end)
    requires forall m :: m in rest ==>
               first.start <= m.start && (m.start == first.start ==> m.end <= first.end) && m.start < m.end
    ensures Resolves([first] + rest, [first] + kept, cursor)
  {
    hide Disjoint;
    KeepDisjoint(first, kept, cursor);
    var all := [first] + kept;
    assert forall k :: k in all <==> k == first || k in kept;
    forall m | m in [first] + rest && m.start >= cursor && m !in all
      ensures exists k :: k in all && k.start <= m.start && Overlap(k, m)
    {
      assert m in rest;
      if m.start < first.end {
        assert first in all && Overlap(first, m);
      } else {
        var k :| k in kept && k.start <= m.start && Overlap(k, m);
        assert k in all;
      }
    }
  }

  lemma KeepDisjoint(first: RawMatch, kept: seq<RawMatch>, cursor: int)
    requires first.start >= cursor && first.start < first.end && Disjoint(kept, first.end)
    ensures Disjoint([first] + kept, cursor) && forall k :: k in kept ==> k.start >= first.end
  {
    forall k | k in kept
      ensures k.start >= first.end
    {
      var i :| 0 <= i < |kept| && kept[i] == k;
    }
  }

  // ---- The choice

  function ScoreAt(h: Hashes, opts: Options, kept: seq<RawMatch>): nat -> nat {
    (i: nat) => SelectionByte(h, opts, kept, i)
  }

  function SelectionByte(h: Hashes, opts: Options, kept: seq<RawMatch>, i: nat): nat {
    if i < |kept| then FirstByte(h.mac(opts.secret, SelectionMessage(opts.clientId, i, kept[i].text))) else 0
  }

  function SelectionMessage(clientId: string, i: nat, text: string): string {
    clientId + "\0" + "select" + "\0" + Decimal(i) + "\0" + text
  }

  function Chosen(h: Hashes, opts: Options, kept: seq<RawMatch>): set<nat> {
    Share(ScoreAt(h, opts, kept), |kept|, opts.maxTokens, opts.density)
  }

  // ---- Rewriting

  function KindName(k: Kind): string {
    match k
    case Email => "email"
    case Phone => "phone"
    case Amount => "amount"
    case Percent => "percent"
    case Date => "date"
    case Org => "org"
  }

  function FakeSeed(clientId: string, k: Kind, original: string, occurrence: nat): string {
    clientId + "|" + KindName(k) + "|" + original + "|" + Decimal(occurrence)
  }

  /** The fake value for a match: that of its kind, client, text and occurrence. */
  function FakeFor(h: Hashes, opts: Options, m: RawMatch, occurrence: nat): string {
    h.fake(m.kind, h.mac(opts.secret, FakeSeed(opts.clientId, m.kind, m.text, occurrence)))
  }

  function OriginalHash(h: Hashes, opts: Options, m: RawMatch): string {
    h.hex(opts.secret, "orig" + "\0" + opts.clientId + "\0" + m.text)
  }

  type Counts = map<Kind, nat>

  function CountOf(seen: Counts, k: Kind): nat { if k in seen then seen[k] else 0 }

  /** The replacements for the chosen ones of `kept[i..]`; occurrences of a kind are counted from the right. */
  function Plan(h: Hashes, opts: Options, kept: seq<RawMatch>, chosen: set<nat>, i: nat): (r: (seq<Replacement>, Counts))
    requires i <= |kept|
    decreases |kept| - i
  {
    if i == |kept| then ([], map[])
    else
      var (later, seen) := Plan(h, opts, kept, chosen, i + 1);
      if i !in chosen then (later, seen)
      else
        var m, occ := kept[i], CountOf(seen, kept[i].kind) + 1;
        ([Replacement(m, FakeFor(h, opts, m, occ), OriginalHash(h, opts, m))] + later, seen[m.kind := occ])
  }

  function EditOf(r: Replacement): Edit { Edit(r.m.start, r.m.end, r.fake) }

  function EditsOf(rs: seq<Replacement>): (es: seq<Edit>)
    ensures |es| == |rs|
  {
    seq(|rs|, i requires 0 <= i < |rs| => EditOf(rs[i]))
  }

  ghost predicate Fits(text: string, kept: seq<RawMatch>) {
    && (forall i :: 0 <= i < |kept| ==> kept[i].start < kept[i].end <= |text|)
    && (forall i, j :: 0 <= i < j < |kept| ==> kept[i].end <= kept[j].start)
  }

  /** Where the part of the text that `kept[i..]` lies in begins. */
  function Cut(text: string, kept: seq<RawMatch>, i: nat): nat
    requires i <= |kept|
  {
    if i == |kept| then |text| else kept[i].start
  }

  lemma CutBefore(text: string, kept: seq<RawMatch>, i: nat)
    requires Fits(text, kept) && i < |kept|
    ensures kept[i].start < kept[i].end <= Cut(text, kept, i + 1) <= |text|
  {}

  lemma {:induction false} PlanInOrder(h: Hashes, opts: Options, text: string, kept: seq<RawMatch>, chosen: set<nat>, i: nat)
    requires i <= |kept| && Fits(text, kept)
    ensures InOrder(text, EditsOf(Plan(h, opts, kept, chosen, i).0), Cut(text, kept, i))
    decreases |kept| - i
  {
    hide InOrder, Fits;
    if i == |kept| {
      NoEdits(text);
    } else {
      CutBefore(text, kept, i);
      PlanInOrder(h, opts, text, kept, chosen, i + 1);
      var later := Plan(h, opts, kept, chosen, i + 1).0;
      var cut := Cut(text, kept, i + 1);
      RewriteFrom(text, EditsOf(later), kept[i].start, cut);
      if i in chosen {
        var r := Plan(h, opts, kept, chosen, i).0[0];
        OneMoreEdit(text, EditOf(r), EditsOf(later), kept[i].start, cut);
        assert EditsOf([r] + later) == [EditOf(r)] + EditsOf(later);
      }
    }
  }

  /** The tokens, with the positions a scan of the rewritten text finds. */
  function TokensOf(rs: seq<Replacement>, found: seq<Option<nat>>): (ts: seq<Token>)
    requires |rs| == |found|
    ensures |ts| == |rs|
  {
    seq(|rs|, i requires 0 <= i < |rs| =>
      Token(rs[i].m.kind, rs[i].fake, rs[i].hash, if found[i].Some? then found[i].value else -1))
  }

  ghost function Inject(h: Hashes, opts: Options, text: string, found: seq<RawMatch>): Injection
    requires WellFound(text, found)
  {
    var kept := Kept(ByStart(found), -1);
    var rs := Plan(h, opts, kept, Chosen(h, opts, kept), 0).0;
    KeptFits(text, found);
    PlanInOrder(h, opts, text, kept, Chosen(h, opts, kept), 0);
    RewriteFrom(text, EditsOf(rs), 0, Cut(text, kept, 0));
    var out := Rewrite(text, EditsOf(rs), 0);
    Injection(out, TokensOf(rs, Located(out, Puts(EditsOf(rs)), 0)))
  }

  lemma BeforeIsTotal()
    ensures TotalPreorder(Before)
  {}

  lemma KeptFits(text: string, found: seq<RawMatch>)
    requires WellFound(text, found)
    ensures var kept := Kept(ByStart(found), -1);
            Fits(text, kept) && Resolves(ByStart(found), kept, -1) && multiset(ByStart(found)) == multiset(found)
            && WellFound(text, kept)
  {
    var ms := ByStart(found);
    SortPermutes(Before, SpanOf(), found);
    BeforeIsTotal();
    SortSorts(Before, SpanOf(), found);
    forall i | 0 <= i < |ms|
      ensures ms[i].start < ms[i].end <= |text| && ms[i].text == text[ms[i].start..ms[i].end]
    {
      assert ms[i] in multiset(ms);
      assert ms[i] in found;
    }
    KeptResolves(ms, -1);
    var kept := Kept(ms, -1);
    forall i | 0 <= i < |kept|
      ensures kept[i].start < kept[i].end <= |text| && kept[i].text == text[kept[i].start..kept[i].end]
    {
      assert kept[i] in ms;
    }
  }

  method PlanAndSplice(h: Hashes, opts: Options, text: string, kept: seq<RawMatch>, chosen: set<nat>)
    returns (out: string, replacements: seq<Replacement>)
    requires Fits(text, kept)
    ensures replacements == Plan(h, opts, kept, chosen, 0).0
    ensures InOrder(text, EditsOf(replacements), 0) && out == Rewrite(text, EditsOf(replacements), 0)
  {
    hide InOrder, Rewrite, Fits, FakeFor, OriginalHash;
    var occurrences: Counts := map[];
    out, replacements := text, [];
    PlanInOrder(h, opts, text, kept, chosen, |kept|);
    NoEdits(text);
    for i := |kept| downto 0
      invariant (replacements, occurrences) == Plan(h, opts, kept, chosen, i)
      invariant InOrder(text, EditsOf(replacements), Cut(text, kept, i)) && Cut(text, kept, i) <= |text|
      invariant out == text[..Cut(text, kept, i)] + Rewrite(text, EditsOf(replacements), Cut(text, kept, i))
    {
      CutBefore(text, kept, i);
      PlanInOrder(h, opts, text, kept, chosen, i);
      var m := kept[i];
      ghost var cut, before := Cut(text, kept, i + 1), replacements;
      if i in chosen {
        var occ := (if m.kind in occurrences then occurrences[m.kind] else 0) + 1;
        occurrences := occurrences[m.kind := occ];
        var fake, hash := FakeFor(h, opts, m, occ), OriginalHash(h, opts, m);
        SpliceBefore(text, EditsOf(before), cut, Edit(m.start, m.end, fake));
        out := out[..m.start] + fake + out[m.end..];
        replacements := [Replacement(m, fake, hash)] + replacements;
        assert EditsOf(replacements) == [Edit(m.start, m.end, fake)] + EditsOf(before);
      } else {
        RewriteFrom(text, EditsOf(before), m.start, cut);
        assert text[..m.start] + text[m.start..cut] == text[..cut];
        Regroup(text[..m.start], text[m.start..cut], Rewrite(text, EditsOf(before), cut));
      }
    }
    RewriteFrom(text, EditsOf(replacements), 0, Cut(text, kept, 0));
    assert text[..Cut(text, kept, 0)] == text[0..Cut(text, kept, 0)];
  }

  lemma NoEdits(text: string)
    ensures InOrder(text, EditsOf([]), |text|) && text == text[..|text|] + Rewrite(text, EditsOf([]), |text|)
  {}

  /** `found` holds the matches of all patterns, pattern by pattern. */
  method InjectHoneytokens(h: Hashes, opts: Options, text: string, found: seq<RawMatch>) returns (r: Result<Injection, Failure>)
    requires WellFound(text, found)
    ensures |opts.secret| < 8 ==> r == Err(SecretTooShort)
    ensures |opts.secret| >= 8 && opts.clientId == "" ==> r == Err(ClientIdRequired)
    ensures |opts.secret| >= 8 && opts.clientId != "" ==> r == Ok(Inject(h, opts, text, found))
  {
    hide InOrder, Rewrite, Sort, Share, Fits, Plan, Kept;
    if |opts.secret| < 8 {
      return Err(SecretTooShort);
    }
    if opts.clientId == "" {
      return Err(ClientIdRequired);
    }
    if |found| == 0 {
      InjectNothing(h, opts, text);
      return Ok(Injection(text, []));
    }
    var all := ByStart(found);
    KeptFits(text, found);
    var kept := ResolveOverlaps(all);
    var chosen := Chosen(h, opts, kept);
    var out, replacements := PlanAndSplice(h, opts, text, kept, chosen);
    var positions := LocateAll(out, Puts(EditsOf(replacements)));
    r := Ok(Injection(out, TokensOf(replacements, positions)));
  }

  lemma InjectNothing(h: Hashes, opts: Options, text: string)
    ensures Inject(h, opts, text, []) == Injection(text, [])
  {
    hide Chosen, Located;
    assert text[0..] == text;
  }

  // ---- Main results

  /** The chosen ones of `kept[i..]`, in order. */
  function ChosenMatches(kept: seq<RawMatch>, chosen: set<nat>, i: nat): seq<RawMatch>
    requires i <= |kept|
    decreases |kept| - i
  {
    if i == |kept| then []
    else (if i in chosen then [kept[i]] else []) + ChosenMatches(kept, chosen, i + 1)
  }

  function OfKind(ms: seq<RawMatch>, k: Kind): nat {
    if ms == [] then 0 else (if ms[0].kind == k then 1 else 0) + OfKind(ms[1..], k)
  }

  /** The replacement of a match that has `occ - 1` chosen ones of its kind to its right. */
  function Replace(h: Hashes, opts: Options, m: RawMatch, occ: nat): Replacement {
    Replacement(m, FakeFor(h, opts, m, occ), OriginalHash(h, opts, m))
  }

  ghost predicate Covers(h: Hashes, opts: Options, rs: seq<Replacement>, seen: Counts, ms: seq<RawMatch>) {
    && |rs| == |ms|
    && (forall k :: 0 <= k < |rs| ==> rs[k] == Replace(h, opts, ms[k], OfKind(ms[k..], ms[k].kind)))
    && (forall kind :: CountOf(seen, kind) == OfKind(ms, kind))
  }

  lemma CoverOneMore(h: Hashes, opts: Options, rs: seq<Replacement>, seen: Counts, ms: seq<RawMatch>, m: RawMatch)
    requires Covers(h, opts, rs, seen, ms)
    ensures var occ := CountOf(seen, m.kind) + 1;
            Covers(h, opts, [Replace(h, opts, m, occ)] + rs, seen[m.kind := occ], [m] + ms)
  {
    hide Replace;
    var occ := CountOf(seen, m.kind) + 1;
    var all, rs' := [m] + ms, [Replace(h, opts, m, occ)] + rs;
    assert all[1..] == ms && all[0..] == all;
    forall k | 0 <= k < |all|
      ensures rs'[k] == Replace(h, opts, all[k], OfKind(all[k..], all[k].kind))
    {
      if k > 0 {
        assert all[k..] == ms[k - 1..];
        assert rs'[k] == rs[k - 1] && all[k] == ms[k - 1];
      }
    }
    forall kind
      ensures CountOf(seen[m.kind := occ], kind) == OfKind(all, kind)
    {
      assert CountOf(seen, kind) == OfKind(ms, kind);
    }
  }

  /** Exactly the chosen matches are replaced, each by the fake value for its occurrence counted from the right. */
  lemma {:induction false} PlanCovers(h: Hashes, opts: Options, kept: seq<RawMatch>, chosen: set<nat>, i: nat)
    requires i <= |kept|
    ensures var (rs, seen) := Plan(h, opts, kept, chosen, i);
            Covers(h, opts, rs, seen, ChosenMatches(kept, chosen, i))
    decreases |kept| - i
  {
    if i < |kept| {
      PlanCovers(h, opts, kept, chosen, i + 1);
      var (later, seen) := Plan(h, opts, kept, chosen, i + 1);
      hide Covers, CountOf;
      CoverOneMore(h, opts, later, seen, ChosenMatches(kept, chosen, i + 1), kept[i]);
      assert [] + ChosenMatches(kept, chosen, i + 1) == ChosenMatches(kept, chosen, i + 1);
    }
  }

  /** Every token is the fake value put for its match. */
  ghost predicate TokensMatch(edits: seq<Edit>, tokens: seq<Token>, ms: seq<RawMatch>) {
    && |edits| == |tokens| == |ms|
    && (forall k :: 0 <= k < |ms| ==> edits[k] == Edit(ms[k].start, ms[k].end, tokens[k].fakeValue) && tokens[k].kind == ms[k].kind)
  }

  /** Every position holds the token's fake value, at or before its true place, and behind the token before. */
  ghost predicate TokensHold(out: string, edits: seq<Edit>, tokens: seq<Token>) {
    && |edits| == |tokens|
    && (forall k :: 0 <= k < |tokens| ==>
          0 <= tokens[k].position <= Place(edits, 0, k) && At(out, tokens[k].fakeValue, tokens[k].position))
    && (forall i, j :: 0 <= i < j < |tokens| ==> tokens[i].position + |tokens[i].fakeValue| <= tokens[j].position)
  }

  lemma TokensAreHeld(text: string, rs: seq<Replacement>)
    requires InOrder(text, EditsOf(rs), 0)
    ensures var out := Rewrite(text, EditsOf(rs), 0);
            TokensHold(out, EditsOf(rs), TokensOf(rs, Located(out, Puts(EditsOf(rs)), 0)))
  {
    hide InOrder, Rewrite, At, Place, Located;
    EveryPutIsFound(text, EditsOf(rs));
  }

  /** Every position is the place where the fake value was inserted. */
  ghost predicate AtPlaces(edits: seq<Edit>, tokens: seq<Token>) {
    |edits| == |tokens| && forall k :: 0 <= k < |tokens| ==> tokens[k].position == Place(edits, 0, k)
  }

  lemma TokensAtPlaces(text: string, rs: seq<Replacement>)
    requires InOrder(text, EditsOf(rs), 0)
    ensures var edits := EditsOf(rs);
            var tokens := TokensOf(rs, Located(Rewrite(text, edits, 0), Puts(edits), 0));
            AtPlaces(edits, tokens) <==> forall k :: 0 <= k < |edits| ==> Clear(text, edits, 0, k)
  {
    hide InOrder, Rewrite, Place, Located, Clear;
    var edits := EditsOf(rs);
    var found := Located(Rewrite(text, edits, 0), Puts(edits), 0);
    var tokens := TokensOf(rs, found);
    HitsAreExact(text, edits);
    TokensAreHeld(text, rs);
    FoundAreTokens(text, rs);
    if AtPlaces(edits, tokens) {
      forall k | 0 <= k < |edits|
        ensures found[k].Some? && found[k].value == Place(edits, 0, k)
      {
        assert tokens[k].position == Place(edits, 0, k);
      }
    }
  }

  lemma FoundAreTokens(text: string, rs: seq<Replacement>)
    requires InOrder(text, EditsOf(rs), 0)
    ensures var found := Located(Rewrite(text, EditsOf(rs), 0), Puts(EditsOf(rs)), 0);
            forall k :: 0 <= k < |rs| ==> found[k].Some? && TokensOf(rs, found)[k].position == found[k].value
  {
    hide InOrder, Rewrite, Place, Located, At;
    EveryPutIsFound(text, EditsOf(rs));
  }

  lemma TokensAreCovered(h: Hashes, opts: Options, rs: seq<Replacement>, seen: Counts, ms: seq<RawMatch>, found: seq<Option<nat>>)
    requires Covers(h, opts, rs, seen, ms) && |found| == |rs|
    ensures TokensMatch(EditsOf(rs), TokensOf(rs, found), ms)
  {
    hide OfKind;
  }

  lemma InjectUnfolds(h: Hashes, opts: Options, text: string, found: seq<RawMatch>) returns (rs: seq<Replacement>)
    requires WellFound(text, found)
    ensures var kept := Kept(ByStart(found), -1);
            rs == Plan(h, opts, kept, Chosen(h, opts, kept), 0).0
    ensures InOrder(text, EditsOf(rs), 0)
    ensures var out := Rewrite(text, EditsOf(rs), 0);
            Inject(h, opts, text, found) == Injection(out, TokensOf(rs, Located(out, Puts(EditsOf(rs)), 0)))
  {
    hide InOrder, Rewrite, Located, Chosen, Kept, ByStart, Fits, Resolves, Plan;
    var kept := Kept(ByStart(found), -1);
    KeptFits(text, found);
    PlanInOrder(h, opts, text, kept, Chosen(h, opts, kept), 0);
    rs := Plan(h, opts, kept, Chosen(h, opts, kept), 0).0;
    RewriteFrom(text, EditsOf(rs), 0, Cut(text, kept, 0));
  }

  /**
    * Whatever the fake values are: exactly the chosen matches are rewritten, which can be undone, and every token can
    * be found at its position. The positions are those of the insertions if and only if no fake value occurs early in
    * the gap of the text before it.
    */
  lemma InjectionLaws(h: Hashes, opts: Options, text: string, found: seq<RawMatch>) returns (edits: seq<Edit>)
    requires WellFound(text, found)
    ensures InOrder(text, edits, 0)
    ensures var r := Inject(h, opts, text, found);
            var kept := Kept(ByStart(found), -1);
            && r.text == Rewrite(text, edits, 0)
            && InOrder(r.text, Undo(text, edits, 0, 0), 0) && Rewrite(r.text, Undo(text, edits, 0, 0), 0) == text
            && TokensMatch(edits, r.tokens, ChosenMatches(kept, Chosen(h, opts, kept), 0))
            && TokensHold(r.text, edits, r.tokens)
            && (AtPlaces(edits, r.tokens) <==> forall k :: 0 <= k < |edits| ==> Clear(text, edits, 0, k))
  {
    hide AtPlaces, Clear, InOrder, Rewrite, Undo, Chosen, Kept, ByStart, Plan, Covers, TokensMatch, TokensHold, Located, Inject;
    var kept := Kept(ByStart(found), -1);
    var rs := InjectUnfolds(h, opts, text, found);
    edits := EditsOf(rs);
    RewriteIsUndone(text, edits);
    PlanCovers(h, opts, kept, Chosen(h, opts, kept), 0);
    TokensAreCovered(h, opts, rs, Plan(h, opts, kept, Chosen(h, opts, kept), 0).1,
                     ChosenMatches(kept, Chosen(h, opts, kept), 0), Located(Rewrite(text, edits, 0), Puts(edits), 0));
    TokensAreHeld(text, rs);
    TokensAtPlaces(text, rs);
  }

  lemma {:induction false} ChosenMatchesCount(kept: seq<RawMatch>, chosen: set<nat>, i: nat)
    requires i <= |kept|
    ensures |ChosenMatches(kept, chosen, i)| == |Within(chosen, i, |kept|)|
    decreases |kept| - i
  {
    var here := Within(chosen, i, |kept|);
    if i == |kept| {
      assert here == {};
    } else {
      ChosenMatchesCount(kept, chosen, i + 1);
      var later := Within(chosen, i + 1, |kept|);
      assert here == (if i in chosen then {i} else {}) + later;
    }
  }

  /** How many values are replaced: the wanted share, at least one if any was found, and never more than the limit. */
  lemma InjectionCount(h: Hashes, opts: Options, text: string, found: seq<RawMatch>)
    requires WellFound(text, found)
    ensures var kept := Kept(ByStart(found), -1);
            |Inject(h, opts, text, found).tokens| ==
            if kept == [] then 0 else ShareCount(|kept|, opts.maxTokens, opts.density)
  {
    hide Inject, Kept, ByStart, Share, TokensMatch, TokensHold, ShareCount;
    var kept := Kept(ByStart(found), -1);
    var chosen := Chosen(h, opts, kept);
    var edits := InjectionLaws(h, opts, text, found);
    assert |Inject(h, opts, text, found).tokens| == |ChosenMatches(kept, chosen, 0)| by {
      MatchSizes(edits, Inject(h, opts, text, found).tokens, ChosenMatches(kept, chosen, 0));
    }
    if kept != [] {
      ShareLaws(ScoreAt(h, opts, kept), |kept|, opts.maxTokens, opts.density);
      ChosenMatchesCount(kept, chosen, 0);
      assert Within(chosen, 0, |kept|) == chosen;
    }
  }

  lemma MatchSizes(edits: seq<Edit>, tokens: seq<Token>, ms: seq<RawMatch>)
    requires TokensMatch(edits, tokens, ms)
    ensures |edits| == |tokens| == |ms|
  {}

  /** Matches overlap exactly if they share a character. */
  lemma OverlapMeans(a: RawMatch, b: RawMatch)
    requires a.start < a.end && b.start < b.end
    ensures Overlap(a, b) <==> exists i: nat :: IsIn(i, a) && IsIn(i, b)
  {
    if Overlap(a, b) {
      var i := if a.start < b.start then b.start else a.start;
      assert IsIn(i, a) && IsIn(i, b);
    }
  }

  predicate IsIn(i: nat, m: RawMatch) { m.start <= i && i < m.end }

  // ---- The messages behind the hashes

  /** The match a selection byte is for, by number and text, can be told from the message. */
  lemma SelectionTells(clientId: string, i: nat, text: string, i': nat, text': string)
    ensures SelectionMessage(clientId, i, text) == SelectionMessage(clientId, i', text') <==> i == i' && text == text'
  {
    var front := clientId + "\0" + "select" + "\0";
    assert SelectionMessage(clientId, i, text) == front + Decimal(i) + (['\0'] + text);
    assert SelectionMessage(clientId, i', text') == front + Decimal(i') + (['\0'] + text');
    hide SelectionMessage;
    FieldTells(front, Decimal(i), Decimal(i'), '\0', text, text');
    DecimalTells(i, i');
  }

  lemma NamesTell(k: Kind, k': Kind)
    ensures '|' !in KindName(k) && (KindName(k) == KindName(k') <==> k == k')
  {}

  /** A fake value is drawn afresh for every kind, text and occurrence: their messages differ. */
  lemma SeedsTell(clientId: string, k: Kind, original: string, n: nat, k': Kind, original': string, n': nat)
    ensures FakeSeed(clientId, k, original, n) == FakeSeed(clientId, k', original', n') <==>
            k == k' && original == original' && n == n'
  {
    SeedParts(clientId, k, original, n);
    SeedParts(clientId, k', original', n');
    hide FakeSeed;
    NamesTell(k, k');
    FieldTells(clientId + "|", KindName(k), KindName(k'), '|', original + (['|'] + Decimal(n)), original' + (['|'] + Decimal(n')));
    LastTells(original, original', '|', Decimal(n), Decimal(n'));
    DecimalTells(n, n');
  }

  lemma SeedParts(clientId: string, k: Kind, original: string, n: nat)
    ensures FakeSeed(clientId, k, original, n) == clientId + "|" + KindName(k) + (['|'] + (original + (['|'] + Decimal(n))))
  {
    hide KindName, Decimal;
  }

  /** Chosen are the matches whose digests start with the lowest bytes, earlier ones first among equals. */
  lemma ChoiceMeans(h: Hashes, opts: Options, text: string, found: seq<RawMatch>, p: nat, q: nat)
    requires forall key, message :: |h.mac(key, message)| == 32
    requires var kept := Kept(ByStart(found), -1);
             p in Chosen(h, opts, kept) && q < |kept| && q !in Chosen(h, opts, kept)
    ensures var kept := Kept(ByStart(found), -1);
            && p < |kept|
            && var b := h.mac(opts.secret, opts.clientId + "\0" + "select" + "\0" + Decimal(p) + "\0" + kept[p].text)[0];
               var c := h.mac(opts.secret, opts.clientId + "\0" + "select" + "\0" + Decimal(q) + "\0" + kept[q].text)[0];
               b < c || (b == c && p < q)
  {
    hide Kept, ByStart, Share;
    var kept := Kept(ByStart(found), -1);
    ShareLaws(ScoreAt(h, opts, kept), |kept|, opts.maxTokens, opts.density);
    assert ScoreAt(h, opts, kept)(p) == SelectionByte(h, opts, kept, p);
    assert ScoreAt(h, opts, kept)(q) == SelectionByte(h, opts, kept, q);
  }

  /** The fake value and the hash of a replaced match, with their messages. */
  lemma ReplacementMeans(h: Hashes, opts: Options, m: RawMatch, occ: nat)
    ensures var r := Replace(h, opts, m, occ);
            var kinds := ["email", "phone", "amount", "percent", "date", "org"];
            var k := match m.kind case Email => 0 case Phone => 1 case Amount => 2 case Percent => 3 case Date => 4 case Org => 5;
            && r.fake == h.fake(m.kind, h.mac(opts.secret, opts.clientId + "|" + kinds[k] + ("|" + m.text + "|" + Decimal(occ))))
            && r.hash == h.hex(opts.secret, "orig\0" + (opts.clientId + "\0") + m.text)
  {
    SeedParts(opts.clientId, m.kind, m.text, occ);
    hide Decimal;
    assert "|" + m.text + "|" + Decimal(occ) == ['|'] + (m.text + (['|'] + Decimal(occ)));
    assert "orig" + "\0" + opts.clientId + "\0" + m.text == "orig\0" + (opts.clientId + "\0") + m.text;
    hide FakeSeed;
  }
}
