/** Numeric jitter: the last digit of some of the numbers in a text is shifted, outside of excluded ranges. */
module Jitter {
  import opened Bytes
  import opened Decimals
  import opened KeyedBits
  import opened Members
  import opened Messages
  import opened Prelude
  import opened Ranking
  import opened Search
  import opened Spans

  /** A digit run from `start` up to `end`. */
  datatype NumberMatch = NumberMatch(start: nat, end: nat, raw: string)

  datatype Replacement = Replacement(m: NumberMatch, jittered: string, hash: string)

  datatype Token = Token(fakeValue: string, originalHash: string, position: int)

  /** The keyed hash, by secret and message, as bytes and in hex. */
  datatype Hashes = Hashes(mac: (string, string) -> Bytes, hex: (string, string) -> string)

  datatype Options = Options(secret: string, clientId: string, maxJitters: Option<real>, density: Option<real>,
                             excluded: seq<(int, int)>)

  datatype Failure = SecretTooShort | ClientIdRequired

  datatype Jittered = Jittered(text: string, tokens: seq<Token>)

  // ---- One number

  predicate IsDigit(c: char) { '0' <= c <= '9' }

  predicate IsNumber(raw: string) { 5 <= |raw| <= 9 && forall i :: 0 <= i < |raw| ==> IsDigit(raw[i]) }

  function Digit(n: int): (c: char)
    requires 0 <= n < 10
    ensures IsDigit(c) && c as int - '0' as int == n
  {
    (n + '0' as int) as char
  }

  function JitterDelta(h: Hashes, secret: string, clientId: string, raw: string): (d: int)
    ensures -3 <= d <= 3 && d != 0
  {
    [-3, -2, -1, 1, 2, 3][FirstByte(h.mac(secret, DeltaMessage(clientId, raw))) % 6]
  }

  function DeltaMessage(clientId: string, raw: string): string { clientId + "\0" + "jitter" + "\0" + raw }

  /** The remainder with the sign of the dividend. */
  function Rem10(n: int): (r: int)
    ensures -10 < n < 10 ==> r == n
    ensures 10 <= n < 20 ==> r == n - 10
  {
    if n >= 0 then n % 10 else -((-n) % 10)
  }

  function NewDigit(last: int, delta: int): (d: int)
    requires 0 <= last < 10 && -3 <= delta <= 3
    ensures 0 <= d < 10 && (delta != 0 ==> d != last)
    ensures d == last + delta || d == last + delta + 10 || d == last + delta - 10
  {
    Rem10(Rem10(last + delta) + 10)
  }

  function JitterNumber(h: Hashes, secret: string, clientId: string, raw: string): string {
    if !IsNumber(raw) then raw
    else
      var n := |raw| - 1;
      raw[..n] + [Digit(NewDigit(raw[n] as int - '0' as int, JitterDelta(h, secret, clientId, raw)))]
  }

  /** A jittered number differs in its last digit, by one to three steps around the digits, and nowhere else. */
  lemma JitterShows(h: Hashes, secret: string, clientId: string, raw: string)
    requires IsNumber(raw)
    ensures var j := JitterNumber(h, secret, clientId, raw);
            var n := |raw| - 1;
            && IsNumber(j) && |j| == |raw| && j[..n] == raw[..n] && j[n] != raw[n]
            && (j[n] as int - raw[n] as int) - JitterDelta(h, secret, clientId, raw) in {-10, 0, 10}
  {
    hide NewDigit, JitterDelta;
  }

  // ---- The matches

  /** The digit runs a pattern search reports: numbers of the text, in order and apart. */
  ghost predicate WellFound(text: string, found: seq<NumberMatch>) {
    && (forall i :: 0 <= i < |found| ==>
          && found[i].start <= found[i].end <= |text| && found[i].raw == text[found[i].start..found[i].end]
          && IsNumber(found[i].raw))
    && (forall i, j :: 0 <= i < j < |found| ==> found[i].end <= found[j].start)
  }

  predicate OverlapsExcluded(excluded: seq<(int, int)>, m: NumberMatch) {
    exists k :: 0 <= k < |excluded| && m.start < excluded[k].1 && excluded[k].0 < m.end
  }

  function Allowed(excluded: seq<(int, int)>, found: seq<NumberMatch>): seq<NumberMatch> {
    if found == [] then []
    else
      var m := found[|found| - 1];
      Allowed(excluded, found[..|found| - 1]) + (if OverlapsExcluded(excluded, m) then [] else [m])
  }

  lemma {:induction false} AllowedLaws(text: string, excluded: seq<(int, int)>, found: seq<NumberMatch>)
    requires WellFound(text, found)
    ensures WellFound(text, Allowed(excluded, found))
    ensures forall m :: m in Allowed(excluded, found) <==> m in found && !OverlapsExcluded(excluded, m)
  {
    if found != [] {
      var n := |found| - 1;
      AllowedLaws(text, excluded, found[..n]);
      var front := Allowed(excluded, found[..n]);
      assert found == found[..n] + [found[n]];
      forall i | 0 <= i < |front|
        ensures front[i].end <= found[n].start
      {
        assert front[i] in found[..n];
      }
    }
  }

  method CollectAllowed(excluded: seq<(int, int)>, found: seq<NumberMatch>) returns (matches: seq<NumberMatch>)
    ensures matches == Allowed(excluded, found)
  {
    matches := [];
    for i := 0 to |found|
      invariant matches == Allowed(excluded, found[..i])
    {
      assert found[..i + 1][..i] == found[..i];
      if !OverlapsExcluded(excluded, found[i]) {
        matches := matches + [found[i]];
      }
    }
    assert found[..|found|] == found;
  }

  // ---- Rewriting

  function ScoreAt(h: Hashes, opts: Options, ms: seq<NumberMatch>): nat -> nat {
    (i: nat) => SelectionByte(h, opts, ms, i)
  }

  function SelectionByte(h: Hashes, opts: Options, ms: seq<NumberMatch>, i: nat): nat {
    if i < |ms| then FirstByte(h.mac(opts.secret, SelectionMessage(opts.clientId, i, ms[i].raw))) else 0
  }

  function SelectionMessage(clientId: string, i: nat, raw: string): string {
    clientId + "\0" + "select-jitter" + "\0" + Decimal(i) + "\0" + raw
  }

  function OriginalHash(h: Hashes, opts: Options, raw: string): string {
    h.hex(opts.secret, "orig-jitter" + "\0" + opts.clientId + "\0" + raw)
  }

  function Chosen(h: Hashes, opts: Options, ms: seq<NumberMatch>): set<nat> {
    Share(ScoreAt(h, opts, ms), |ms|, opts.maxJitters, opts.density)
  }

  function Shifted(h: Hashes, opts: Options, m: NumberMatch): Replacement {
    Replacement(m, JitterNumber(h, opts.secret, opts.clientId, m.raw), OriginalHash(h, opts, m.raw))
  }

  /** The replacements for the chosen ones of `ms[i..]`; a number that did not change would be passed over. */
  function Plan(h: Hashes, opts: Options, ms: seq<NumberMatch>, chosen: set<nat>, i: nat): seq<Replacement>
    requires i <= |ms|
    decreases |ms| - i
  {
    if i == |ms| then []
    else
      var later := Plan(h, opts, ms, chosen, i + 1);
      if i !in chosen || Shifted(h, opts, ms[i]).jittered == ms[i].raw then later else [Shifted(h, opts, ms[i])] + later
  }

  function EditOf(r: Replacement): Edit { Edit(r.m.start, r.m.end, r.jittered) }

  function EditsOf(rs: seq<Replacement>): (es: seq<Edit>)
    ensures |es| == |rs|
  {
    seq(|rs|, i requires 0 <= i < |rs| => EditOf(rs[i]))
  }

  function Cut(text: string, ms: seq<NumberMatch>, i: nat): nat
    requires i <= |ms|
  {
    if i == |ms| then |text| else ms[i].start
  }

  lemma CutBefore(text: string, ms: seq<NumberMatch>, i: nat)
    requires WellFound(text, ms) && i < |ms|
    ensures ms[i].start <= ms[i].end <= Cut(text, ms, i + 1) <= |text|
  {}

  lemma {:induction false} PlanInOrder(h: Hashes, opts: Options, text: string, ms: seq<NumberMatch>, chosen: set<nat>, i: nat)
    requires i <= |ms| && WellFound(text, ms)
    ensures InOrder(text, EditsOf(Plan(h, opts, ms, chosen, i)), Cut(text, ms, i))
    decreases |ms| - i
  {
    hide InOrder, WellFound, Shifted;
    if i == |ms| {
      NoEdits(text);
    } else {
      CutBefore(text, ms, i);
      PlanInOrder(h, opts, text, ms, chosen, i + 1);
      var later := Plan(h, opts, ms, chosen, i + 1);
      var cut := Cut(text, ms, i + 1);
      RewriteFrom(text, EditsOf(later), ms[i].start, cut);
      var r := Shifted(h, opts, ms[i]);
      assert r.m == ms[i] by {
        ShiftedMatch(h, opts, ms[i]);
      }
      OneMoreEdit(text, EditOf(r), EditsOf(later), ms[i].start, cut);
      assert EditsOf([r] + later) == [EditOf(r)] + EditsOf(later);
    }
  }

  lemma ShiftedMatch(h: Hashes, opts: Options, m: NumberMatch)
    ensures Shifted(h, opts, m).m == m
  {}

  lemma NoEdits(text: string)
    ensures InOrder(text, EditsOf([]), |text|) && text == text[..|text|] + Rewrite(text, EditsOf([]), |text|)
  {}

  function TokensOf(rs: seq<Replacement>, found: seq<Option<nat>>): (ts: seq<Token>)
    requires |rs| == |found|
    ensures |ts| == |rs|
  {
    seq(|rs|, i requires 0 <= i < |rs| => Token(rs[i].jittered, rs[i].hash, if found[i].Some? then found[i].value else -1))
  }

  ghost function Jitter(h: Hashes, opts: Options, text: string, found: seq<NumberMatch>): Jittered
    requires WellFound(text, found)
  {
    AllowedLaws(text, opts.excluded, found);
    var ms := Allowed(opts.excluded, found);
    var rs := Plan(h, opts, ms, Chosen(h, opts, ms), 0);
    PlanInOrder(h, opts, text, ms, Chosen(h, opts, ms), 0);
    RewriteFrom(text, EditsOf(rs), 0, Cut(text, ms, 0));
    var out := Rewrite(text, EditsOf(rs), 0);
    Jittered(out, TokensOf(rs, Located(out, Puts(EditsOf(rs)), 0)))
  }

  method PlanAndSplice(h: Hashes, opts: Options, text: string, ms: seq<NumberMatch>, chosen: set<nat>)
    returns (out: string, replacements: seq<Replacement>)
    requires WellFound(text, ms)
    ensures replacements == Plan(h, opts, ms, chosen, 0)
    ensures InOrder(text, EditsOf(replacements), 0) && out == Rewrite(text, EditsOf(replacements), 0)
  {
    hide InOrder, Rewrite, WellFound, JitterNumber;
    out, replacements := text, [];
    PlanInOrder(h, opts, text, ms, chosen, |ms|);
    NoEdits(text);
    for i := |ms| downto 0
      invariant replacements == Plan(h, opts, ms, chosen, i)
      invariant InOrder(text, EditsOf(replacements), Cut(text, ms, i)) && Cut(text, ms, i) <= |text|
      invariant out == text[..Cut(text, ms, i)] + Rewrite(text, EditsOf(replacements), Cut(text, ms, i))
    {
      CutBefore(text, ms, i);
      PlanInOrder(h, opts, text, ms, chosen, i);
      var m := ms[i];
      ghost var cut, before := Cut(text, ms, i + 1), replacements;
      var jittered := JitterNumber(h, opts.secret, opts.clientId, m.raw);
      if i in chosen && jittered != m.raw {
        SpliceBefore(text, EditsOf(before), cut, Edit(m.start, m.end, jittered));
        out := out[..m.start] + jittered + out[m.end..];
        replacements := [Replacement(m, jittered, OriginalHash(h, opts, m.raw))] + replacements;
        assert EditsOf(replacements) == [Edit(m.start, m.end, jittered)] + EditsOf(before);
      } else {
        RewriteFrom(text, EditsOf(before), m.start, cut);
        assert text[..m.start] + text[m.start..cut] == text[..cut];
        Regroup4(text[..m.start], text[m.start..cut], Rewrite(text, EditsOf(before), cut), []);
        assert Rewrite(text, EditsOf(before), cut) + [] == Rewrite(text, EditsOf(before), cut);
      }
    }
    RewriteFrom(text, EditsOf(replacements), 0, Cut(text, ms, 0));
    assert text[..Cut(text, ms, 0)] == text[0..Cut(text, ms, 0)];
  }

  /** `found` holds the digit runs of the text. */
  method ApplyNumericJitter(h: Hashes, opts: Options, text: string, found: seq<NumberMatch>) returns (r: Result<Jittered, Failure>)
    requires WellFound(text, found)
    ensures |opts.secret| < 8 ==> r == Err(SecretTooShort)
    ensures |opts.secret| >= 8 && opts.clientId == "" ==> r == Err(ClientIdRequired)
    ensures |opts.secret| >= 8 && opts.clientId != "" ==> r == Ok(Jitter(h, opts, text, found))
  {
    hide InOrder, Rewrite, Share, WellFound, Plan, IndexOf, OverlapsExcluded;
    if |opts.secret| < 8 {
      return Err(SecretTooShort);
    }
    if opts.clientId == "" {
      return Err(ClientIdRequired);
    }
    var ms := CollectAllowed(opts.excluded, found);
    AllowedLaws(text, opts.excluded, found);
    var chosen := Chosen(h, opts, ms);
    var out, replacements := PlanAndSplice(h, opts, text, ms, chosen);
    var positions := LocateAll(out, Puts(EditsOf(replacements)));
    r := Ok(Jittered(out, TokensOf(replacements, positions)));
  }

  // ---- Main results

  /** The replacements are those of the chosen matches. */
  ghost predicate Covers(h: Hashes, opts: Options, rs: seq<Replacement>, ms: seq<NumberMatch>, chosen: set<nat>, i: nat) {
    && (forall r :: r in rs ==> exists j :: i <= j < |ms| && j in chosen && r == Shifted(h, opts, ms[j]))
    && (forall j :: i <= j < |ms| && j in chosen ==> Shifted(h, opts, ms[j]) in rs)
  }

  lemma CoverOneMore(h: Hashes, opts: Options, rs: seq<Replacement>, ms: seq<NumberMatch>, chosen: set<nat>, i: nat)
    requires i < |ms| && Covers(h, opts, rs, ms, chosen, i + 1)
    ensures Covers(h, opts, if i in chosen then [Shifted(h, opts, ms[i])] + rs else rs, ms, chosen, i)
  {
    hide Shifted;
    var all := if i in chosen then [Shifted(h, opts, ms[i])] + rs else rs;
    forall r | r in all
      ensures exists j :: i <= j < |ms| && j in chosen && r == Shifted(h, opts, ms[j])
    {
      if r in rs {
        var j :| i + 1 <= j < |ms| && j in chosen && r == Shifted(h, opts, ms[j]);
      }
    }
  }

  lemma PlanStep(h: Hashes, opts: Options, ms: seq<NumberMatch>, chosen: set<nat>, i: nat)
    requires i < |ms| && IsNumber(ms[i].raw)
    ensures var later := Plan(h, opts, ms, chosen, i + 1);
            Plan(h, opts, ms, chosen, i) == if i in chosen then [Shifted(h, opts, ms[i])] + later else later
  {
    hide IsNumber, JitterNumber;
    JitterShows(h, opts.secret, opts.clientId, ms[i].raw);
  }

  lemma CoverNone(h: Hashes, opts: Options, ms: seq<NumberMatch>, chosen: set<nat>)
    ensures Covers(h, opts, Plan(h, opts, ms, chosen, |ms|), ms, chosen, |ms|)
  {}

  lemma {:induction false} PlanMembers(h: Hashes, opts: Options, ms: seq<NumberMatch>, chosen: set<nat>, i: nat)
    requires i <= |ms| && forall k :: 0 <= k < |ms| ==> IsNumber(ms[k].raw)
    ensures Covers(h, opts, Plan(h, opts, ms, chosen, i), ms, chosen, i)
    decreases |ms| - i
  {
    hide IsNumber, Shifted, Plan, Covers;
    if i == |ms| {
      CoverNone(h, opts, ms, chosen);
    } else {
      PlanMembers(h, opts, ms, chosen, i + 1);
      PlanStep(h, opts, ms, chosen, i);
      CoverOneMore(h, opts, Plan(h, opts, ms, chosen, i + 1), ms, chosen, i);
    }
  }

  lemma {:induction false} PlanSize(h: Hashes, opts: Options, ms: seq<NumberMatch>, chosen: set<nat>, i: nat)
    requires i <= |ms| && forall k :: 0 <= k < |ms| ==> IsNumber(ms[k].raw)
    ensures |Plan(h, opts, ms, chosen, i)| == |Within(chosen, i, |ms|)|
    decreases |ms| - i
  {
    hide IsNumber, Shifted;
    var here := Within(chosen, i, |ms|);
    if i == |ms| {
      assert here == {};
    } else {
      PlanSize(h, opts, ms, chosen, i + 1);
      PlanStep(h, opts, ms, chosen, i);
      assert here == (if i in chosen then {i} else {}) + Within(chosen, i + 1, |ms|);
    }
  }

  /** Every position holds the jittered number, at or before its true place, and behind the token before. */
  ghost predicate TokensHold(out: string, rs: seq<Replacement>, tokens: seq<Token>) {
    && |rs| == |tokens|
    && (forall k :: 0 <= k < |tokens| ==>
          && tokens[k].fakeValue == rs[k].jittered && 0 <= tokens[k].position <= rs[k].m.start
          && At(out, rs[k].jittered, tokens[k].position))
    && (forall i, j :: 0 <= i < j < |tokens| ==> tokens[i].position + |rs[i].jittered| <= tokens[j].position)
  }

  lemma TokensAreHeld(text: string, rs: seq<Replacement>)
    requires InOrder(text, EditsOf(rs), 0) && SameLengths(EditsOf(rs))
    ensures var out := Rewrite(text, EditsOf(rs), 0);
            TokensHold(out, rs, TokensOf(rs, Located(out, Puts(EditsOf(rs)), 0)))
  {
    hide InOrder, Rewrite, At, Place, Located, SameLengths;
    EveryPutIsFound(text, EditsOf(rs));
    forall k: nat | k < |rs|
      ensures Place(EditsOf(rs), 0, k) == rs[k].m.start
    {
      PlacesStay(EditsOf(rs), 0, k);
    }
  }

  /** Every position is the place where the jittered number stands. */
  ghost predicate AtPlaces(rs: seq<Replacement>, tokens: seq<Token>) {
    |rs| == |tokens| && forall k :: 0 <= k < |tokens| ==> tokens[k].position == rs[k].m.start
  }

  lemma TokensAtPlaces(text: string, rs: seq<Replacement>)
    requires InOrder(text, EditsOf(rs), 0) && SameLengths(EditsOf(rs))
    ensures var edits := EditsOf(rs);
            var tokens := TokensOf(rs, Located(Rewrite(text, edits, 0), Puts(edits), 0));
            AtPlaces(rs, tokens) <==> forall k :: 0 <= k < |edits| ==> Clear(text, edits, 0, k)
  {
    hide InOrder, Rewrite, At, Place, Located, SameLengths, Clear;
    var edits := EditsOf(rs);
    var found := Located(Rewrite(text, edits, 0), Puts(edits), 0);
    var tokens := TokensOf(rs, found);
    EveryPutIsFound(text, edits);
    HitsAreExact(text, edits);
    forall k: nat | k < |rs|
      ensures Place(edits, 0, k) == rs[k].m.start && found[k].Some? && tokens[k].position == found[k].value
    {
      PlacesStay(edits, 0, k);
    }
    if AtPlaces(rs, tokens) {
      forall k | 0 <= k < |edits|
        ensures found[k].Some? && found[k].value == Place(edits, 0, k)
      {
        assert tokens[k].position == rs[k].m.start;
      }
    }
  }

  /** The last digit of a chosen match. */
  ghost predicate IsHit(ms: seq<NumberMatch>, chosen: set<nat>, i: int) {
    exists j :: 0 <= j < |ms| && j in chosen && i == ms[j].end - 1
  }

  lemma ChangedInSpan(h: Hashes, opts: Options, text: string, m: NumberMatch, out: string, i: nat)
    requires m.start <= i < m.end <= |text| && m.raw == text[m.start..m.end] && IsNumber(m.raw)
    requires At(out, Shifted(h, opts, m).jittered, m.start) && |out| == |text|
    ensures out[i] != text[i] <==> i == m.end - 1
  {
    JitterShows(h, opts.secret, opts.clientId, m.raw);
    var j, n := Shifted(h, opts, m).jittered, |m.raw| - 1;
    hide JitterNumber, IsNumber;
    assert out[i] == out[m.start..m.start + |j|][i - m.start] == j[i - m.start];
    assert text[i] == m.raw[i - m.start];
    if i < m.end - 1 {
      assert j[i - m.start] == j[..n][i - m.start] && m.raw[i - m.start] == m.raw[..n][i - m.start];
    }
  }

  /** Exactly the last digits of the chosen matches change. */
  lemma ChangedExactly(h: Hashes, opts: Options, text: string, ms: seq<NumberMatch>, chosen: set<nat>, rs: seq<Replacement>)
    requires WellFound(text, ms) && rs == Plan(h, opts, ms, chosen, 0) && InOrder(text, EditsOf(rs), 0)
    ensures SameLengths(EditsOf(rs)) && |Rewrite(text, EditsOf(rs), 0)| == |text|
    ensures forall i :: 0 <= i < |text| ==> (Rewrite(text, EditsOf(rs), 0)[i] != text[i] <==> IsHit(ms, chosen, i))
  {
    hide InOrder, Rewrite, Plan, At, Shifted, Outside;
    var edits := EditsOf(rs);
    var out := Rewrite(text, edits, 0);
    PlanMembers(h, opts, ms, chosen, 0);
    LengthsStay(h, opts, text, ms, chosen, rs);
    RewriteInPlace(text, edits, 0);
    forall i: nat | i < |text|
      ensures out[i] != text[i] <==> IsHit(ms, chosen, i)
    {
      if Outside(edits, i) {
        NotHit(h, opts, text, ms, chosen, rs, i);
      } else {
        var k := SpanAt(edits, i);
        assert rs[k] in rs;
        var j :| 0 <= j < |ms| && j in chosen && rs[k] == Shifted(h, opts, ms[j]);
        ShiftedMatch(h, opts, ms[j]);
        PlaceHolds(text, edits, 0, k);
        PlacesStay(edits, 0, k);
        ChangedInSpan(h, opts, text, ms[j], out, i);
        OnlyOwnSpan(text, ms, j, i);
      }
    }
  }

  lemma SpanAt(edits: seq<Edit>, i: int) returns (k: nat)
    requires !Outside(edits, i)
    ensures k < |edits| && edits[k].start <= i < edits[k].end
  {
    k :| 0 <= k < |edits| && edits[k].start <= i < edits[k].end;
  }

  lemma OnlyOwnSpan(text: string, ms: seq<NumberMatch>, j: nat, i: int)
    requires WellFound(text, ms) && j < |ms| && ms[j].start <= i < ms[j].end
    ensures forall j' :: 0 <= j' < |ms| && i == ms[j'].end - 1 ==> j' == j
  {
    hide IsNumber;
    forall j' | 0 <= j' < |ms| && i == ms[j'].end - 1
      ensures j' == j
    {
      NumbersAreLong(text, ms, j');
    }
  }

  lemma LengthsStay(h: Hashes, opts: Options, text: string, ms: seq<NumberMatch>, chosen: set<nat>, rs: seq<Replacement>)
    requires WellFound(text, ms) && Covers(h, opts, rs, ms, chosen, 0)
    ensures SameLengths(EditsOf(rs))
  {
    hide IsNumber, JitterNumber;
    forall k | 0 <= k < |rs|
      ensures rs[k].m.start <= rs[k].m.end && |rs[k].jittered| == rs[k].m.end - rs[k].m.start
    {
      assert rs[k] in rs;
      var j :| 0 <= j < |ms| && j in chosen && rs[k] == Shifted(h, opts, ms[j]);
      JitterShows(h, opts.secret, opts.clientId, ms[j].raw);
    }
  }

  lemma NotHit(h: Hashes, opts: Options, text: string, ms: seq<NumberMatch>, chosen: set<nat>, rs: seq<Replacement>, i: int)
    requires WellFound(text, ms) && Outside(EditsOf(rs), i)
    requires Covers(h, opts, rs, ms, chosen, 0)
    ensures !IsHit(ms, chosen, i)
  {
    hide JitterNumber, IsNumber, Shifted;
    if IsHit(ms, chosen, i) {
      var j :| 0 <= j < |ms| && j in chosen && i == ms[j].end - 1;
      var k :| 0 <= k < |rs| && rs[k] == Shifted(h, opts, ms[j]);
      ShiftedMatch(h, opts, ms[j]);
      assert EditsOf(rs)[k] == EditOf(rs[k]);
      NumbersAreLong(text, ms, j);
      assert false;
    }
  }

  lemma NumbersAreLong(text: string, ms: seq<NumberMatch>, j: nat)
    requires WellFound(text, ms) && j < |ms|
    ensures ms[j].start < ms[j].end
  {}

  /**
    * Jitter keeps the length of the text and changes exactly the last digits of the chosen numbers, which are as many
    * as the share asks for. Every token can be found at its position, and all positions are those of the numbers if and
    * only if no jittered number occurs early in the gap of the text before it.
    */
  lemma JitterLaws(h: Hashes, opts: Options, text: string, found: seq<NumberMatch>)
    requires WellFound(text, found)
    ensures var r := Jitter(h, opts, text, found);
            var ms := Allowed(opts.excluded, found);
            var chosen := Chosen(h, opts, ms);
            && |r.text| == |text|
            && (forall i :: 0 <= i < |text| ==> (r.text[i] != text[i] <==> IsHit(ms, chosen, i)))
            && |r.tokens| == (if ms == [] then 0 else ShareCount(|ms|, opts.maxJitters, opts.density))
            && TokensHold(r.text, Plan(h, opts, ms, chosen, 0), r.tokens)
            && InOrder(text, EditsOf(Plan(h, opts, ms, chosen, 0)), 0)
            && (AtPlaces(Plan(h, opts, ms, chosen, 0), r.tokens) <==>
                forall k :: 0 <= k < |r.tokens| ==> Clear(text, EditsOf(Plan(h, opts, ms, chosen, 0)), 0, k))
  {
    hide AtPlaces, Clear, InOrder, Rewrite, Plan, TokensHold, Located, IsHit, Share, ShareCount, OverlapsExcluded;
    AllowedLaws(text, opts.excluded, found);
    var ms := Allowed(opts.excluded, found);
    var chosen := Chosen(h, opts, ms);
    var rs := Plan(h, opts, ms, chosen, 0);
    PlanInOrder(h, opts, text, ms, chosen, 0);
    RewriteFrom(text, EditsOf(rs), 0, Cut(text, ms, 0));
    ChangedExactly(h, opts, text, ms, chosen, rs);
    TokensAreHeld(text, rs);
    TokensAtPlaces(text, rs);
    PlanSize(h, opts, ms, chosen, 0);
    if ms == [] {
      assert Within(chosen, 0, 0) == {};
    } else {
      ShareLaws(ScoreAt(h, opts, ms), |ms|, opts.maxJitters, opts.density);
      assert Within(chosen, 0, |ms|) == chosen;
    }
  }

  lemma ExcludedStays(h: Hashes, opts: Options, text: string, found: seq<NumberMatch>, x: nat)
    requires WellFound(text, found) && x < |opts.excluded|
    ensures var r := Jitter(h, opts, text, found);
            forall i :: opts.excluded[x].0 <= i < opts.excluded[x].1 && 0 <= i < |text| ==> i < |r.text| && r.text[i] == text[i]
  {
    hide Jitter, Chosen, TokensHold, Plan, WellFound;
    var ms := Allowed(opts.excluded, found);
    JitterLaws(h, opts, text, found);
    AllowedLaws(text, opts.excluded, found);
    forall i: nat | opts.excluded[x].0 <= i < opts.excluded[x].1 && i < |text|
      ensures !IsHit(ms, Chosen(h, opts, ms), i)
    {
      forall j | 0 <= j < |ms|
        ensures i != ms[j].end - 1
      {
        assert ms[j] in ms;
        NumbersAreLong(text, ms, j);
        assert !OverlapsExcluded(opts.excluded, ms[j]);
      }
    }
  }

  // ---- Jittering twice

  /** Jitter leaves the text alone exactly if it makes no token, which is if no number is allowed. */
  lemma UnchangedWithoutTokens(h: Hashes, opts: Options, text: string, found: seq<NumberMatch>)
    requires WellFound(text, found)
    ensures var r, ms := Jitter(h, opts, text, found), Allowed(opts.excluded, found);
            && (r.text == text <==> ms == []) && (r.tokens == [] <==> ms == [])
  {
    hide Jitter, Plan, TokensHold, AtPlaces, WellFound, Clear, InOrder;
    var r, ms := Jitter(h, opts, text, found), Allowed(opts.excluded, found);
    var chosen := Chosen(h, opts, ms);
    JitterLaws(h, opts, text, found);
    AllowedLaws(text, opts.excluded, found);
    if ms == [] {
      assert r.text == text;
    } else {
      ShareLaws(ScoreAt(h, opts, ms), |ms|, opts.maxJitters, opts.density);
      assert chosen != {};
      var i :| i in chosen;
      InText(text, ms, i);
      assert IsHit(ms, chosen, ms[i].end - 1);
    }
  }

  lemma InText(text: string, ms: seq<NumberMatch>, i: nat)
    requires WellFound(text, ms) && i < |ms|
    ensures 0 <= ms[i].end - 1 < |text|
  {
    NumbersAreLong(text, ms, i);
  }

  ghost predicate SameSpans(found: seq<NumberMatch>, again: seq<NumberMatch>) {
    |found| == |again| && forall i :: 0 <= i < |found| ==> found[i].start == again[i].start && found[i].end == again[i].end
  }

  lemma {:induction false} AllowedSpans(excluded: seq<(int, int)>, found: seq<NumberMatch>, again: seq<NumberMatch>)
    requires SameSpans(found, again)
    ensures |Allowed(excluded, found)| == |Allowed(excluded, again)|
  {
    if found != [] {
      var n := |found| - 1;
      AllowedSpans(excluded, found[..n], again[..n]);
      assert OverlapsExcluded(excluded, found[n]) <==> OverlapsExcluded(excluded, again[n]);
    }
  }

  /** A second pass over the digit runs of the first leaves the text alone if and only if the first made no token. */
  lemma SecondPass(h: Hashes, opts: Options, text: string, found: seq<NumberMatch>, again: seq<NumberMatch>)
    requires WellFound(text, found) && WellFound(Jitter(h, opts, text, found).text, again) && SameSpans(found, again)
    ensures var r := Jitter(h, opts, text, found);
            Jitter(h, opts, r.text, again).text == r.text <==> r.tokens == []
  {
    hide Jitter, WellFound;
    UnchangedWithoutTokens(h, opts, text, found);
    UnchangedWithoutTokens(h, opts, Jitter(h, opts, text, found).text, again);
    AllowedSpans(opts.excluded, found, again);
  }

  // ---- A position before the number

  /** A number in an excluded range, and one that is jittered to read the same. */
  function TwinText(): string { "12346 12345" }

  function TwinMatches(): seq<NumberMatch> { [NumberMatch(0, 5, "12346"), NumberMatch(6, 11, "12345")] }

  /** Where a single number is allowed, it is jittered, and its token is placed at the first hit in the whole text. */
  lemma OneJitter(h: Hashes, opts: Options, text: string, found: seq<NumberMatch>, m: NumberMatch)
    requires WellFound(text, found) && Allowed(opts.excluded, found) == [m]
    ensures m.start <= m.end <= |text|
    ensures var j := JitterNumber(h, opts.secret, opts.clientId, m.raw);
            var r, out := Jitter(h, opts, text, found), text[..m.start] + j + text[m.end..];
            && r.text == out && |r.tokens| == 1 && r.tokens[0].fakeValue == j
            && (At(out, j, 0) ==> r.tokens[0].position == 0)
  {
    hide JitterNumber, IsNumber, Chosen, Jitter, Plan, Rewrite, InOrder, Located, IndexOf, At, WellFound, Allowed;
    var rs := JitterUnfolds(h, opts, text, found);
    OneFound(text, m);
    OnePlan(h, opts, m);
    var e := EditOf(Shifted(h, opts, m));
    assert EditsOf(rs) == [e];
    OnePut(text, e);
    var out := text[..e.start] + e.put + text[e.end..];
    if At(out, e.put, 0) {
      IndexOfIs(out, e.put, 0, 0);
    }
  }

  lemma OneFound(text: string, m: NumberMatch)
    requires WellFound(text, [m])
    ensures m.start <= m.end <= |text| && IsNumber(m.raw)
  {
    assert [m][0] == m;
  }

  lemma JitterUnfolds(h: Hashes, opts: Options, text: string, found: seq<NumberMatch>) returns (rs: seq<Replacement>)
    requires WellFound(text, found)
    ensures var ms := Allowed(opts.excluded, found);
            WellFound(text, ms) && rs == Plan(h, opts, ms, Chosen(h, opts, ms), 0)
    ensures InOrder(text, EditsOf(rs), 0)
    ensures var out := Rewrite(text, EditsOf(rs), 0);
            Jitter(h, opts, text, found) == Jittered(out, TokensOf(rs, Located(out, Puts(EditsOf(rs)), 0)))
  {
    hide InOrder, Rewrite, Located, Chosen, WellFound, Plan;
    AllowedLaws(text, opts.excluded, found);
    var ms := Allowed(opts.excluded, found);
    rs := Plan(h, opts, ms, Chosen(h, opts, ms), 0);
    PlanInOrder(h, opts, text, ms, Chosen(h, opts, ms), 0);
    RewriteFrom(text, EditsOf(rs), 0, Cut(text, ms, 0));
  }

  lemma OnePlan(h: Hashes, opts: Options, m: NumberMatch)
    requires IsNumber(m.raw)
    ensures Plan(h, opts, [m], Chosen(h, opts, [m]), 0) == [Shifted(h, opts, m)]
  {
    hide IsNumber, JitterNumber, Share;
    var ms := [m];
    ShareLaws(ScoreAt(h, opts, ms), 1, opts.maxJitters, opts.density);
    var chosen := Chosen(h, opts, ms);
    assert 0 in chosen by {
      assert chosen != {};
    }
    PlanStep(h, opts, ms, chosen, 0);
  }

  lemma OnePut(text: string, e: Edit)
    requires e.start <= e.end <= |text|
    ensures InOrder(text, [e], 0)
    ensures var out := text[..e.start] + e.put + text[e.end..];
            Rewrite(text, [e], 0) == out && Located(out, Puts([e]), 0) == [IndexOf(out, e.put, 0)]
  {
    assert [e][1..] == [] && Puts([e]) == [e.put] && [e.put][1..] == [];
  }

  /** The token of the second number is reported at the first one, where nothing was inserted. */
  lemma HitCanBeEarly(h: Hashes, opts: Options)
    requires opts.excluded == [(0, 5)] && FirstByte(h.mac(opts.secret, DeltaMessage(opts.clientId, "12345"))) % 6 == 3
    ensures WellFound(TwinText(), TwinMatches())
    ensures var r := Jitter(h, opts, TwinText(), TwinMatches());
            && r.text == "12346 12346" && |r.tokens| == 1 && r.tokens[0].fakeValue == "12346" && r.tokens[0].position == 0
  {
    var text, found, m := TwinText(), TwinMatches(), TwinMatches()[1];
    TwinAllowed(opts.excluded);
    TwinShift(h, opts);
    TwinsFound();
    hide JitterNumber, Jitter, WellFound, Allowed;
    OneJitter(h, opts, text, found, m);
    var out := text[..6] + "12346" + text[11..];
    assert out == "12346 12346" && out[0..5] == "12346";
  }

  lemma TwinsFound()
    ensures WellFound(TwinText(), TwinMatches())
  {
    var text := TwinText();
    assert text[0..5] == "12346" && text[6..11] == "12345";
  }

  lemma TwinShift(h: Hashes, opts: Options)
    requires FirstByte(h.mac(opts.secret, DeltaMessage(opts.clientId, "12345"))) % 6 == 3
    ensures JitterNumber(h, opts.secret, opts.clientId, "12345") == "12346"
  {
    var raw := "12345";
    assert IsNumber(raw) && raw[..4] == "1234" && raw[4] == '5';
    assert JitterDelta(h, opts.secret, opts.clientId, raw) == 1;
    assert NewDigit(5, 1) == 6;
    assert Digit(6) == '6';
    assert "1234" + ['6'] == "12346";
  }

  lemma TwinAllowed(excluded: seq<(int, int)>)
    requires excluded == [(0, 5)]
    ensures Allowed(excluded, TwinMatches()) == [TwinMatches()[1]]
  {
    var found := TwinMatches();
    assert found[..1] == [found[0]] && found[..1][..0] == [];
    assert OverlapsExcluded(excluded, found[0]) by {
      assert found[0].start < excluded[0].1 && excluded[0].0 < found[0].end;
    }
    assert Allowed(excluded, found[..1]) == [];
  }

  /** Exactly the runs of five to nine digits are jittered, by one to three steps down or up as the hashed byte says. */
  lemma JitteredRuns(h: Hashes, secret: string, clientId: string, raw: string)
    ensures JitterNumber(h, secret, clientId, raw) != raw <==>
            5 <= |raw| && |raw| <= 9 && forall i: nat :: i < |raw| ==> '0' <= raw[i] && raw[i] <= '9'
    ensures |h.mac(secret, clientId + ("\0" + "jitter" + "\0" + raw))| == 32 ==>
              var r := h.mac(secret, clientId + ("\0" + "jitter" + "\0" + raw))[0] as int % 6;
              JitterDelta(h, secret, clientId, raw) == if r < 3 then r - 3 else r - 2
  {
    assert DeltaMessage(clientId, raw) == clientId + ("\0" + "jitter" + "\0" + raw);
    if IsNumber(raw) {
      JitterShows(h, secret, clientId, raw);
    }
    hide JitterNumber, DeltaMessage;
  }

  /** The number a selection byte is for can be told from the message, and no message selects and shifts. */
  lemma SelectionTells(clientId: string, i: nat, raw: string, i': nat, raw': string)
    ensures SelectionMessage(clientId, i, raw) == SelectionMessage(clientId, i', raw') <==> i == i' && raw == raw'
    ensures SelectionMessage(clientId, i, raw) != DeltaMessage(clientId, raw')
  {
    var name, rest, rest' := "select-jitter", Decimal(i) + (['\0'] + raw), Decimal(i') + (['\0'] + raw');
    SelectionParts(clientId, i, raw);
    SelectionParts(clientId, i', raw');
    assert DeltaMessage(clientId, raw') == clientId + "\0" + "jitter" + (['\0'] + raw');
    hide SelectionMessage, DeltaMessage;
    FieldTells(clientId + "\0", name, name, '\0', rest, rest');
    FieldTells("", Decimal(i), Decimal(i'), '\0', raw, raw');
    FieldTells(clientId + "\0", name, "jitter", '\0', rest, raw');
    DecimalTells(i, i');
    assert "" + Decimal(i) == Decimal(i) && "" + Decimal(i') == Decimal(i');
  }

  lemma SelectionParts(clientId: string, i: nat, raw: string)
    ensures SelectionMessage(clientId, i, raw) == clientId + "\0" + "select-jitter" + (['\0'] + (Decimal(i) + (['\0'] + raw)))
  {
    hide Decimal;
  }

  /** Chosen are the numbers whose digests start with the lowest bytes, earlier ones first among equals. */
  lemma ChoiceMeans(h: Hashes, opts: Options, ms: seq<NumberMatch>, p: nat, q: nat)
    requires forall key, message :: |h.mac(key, message)| == 32
    requires p in Chosen(h, opts, ms) && q < |ms| && q !in Chosen(h, opts, ms)
    ensures p < |ms|
    ensures var b := h.mac(opts.secret, opts.clientId + "\0" + "select-jitter" + "\0" + Decimal(p) + "\0" + ms[p].raw)[0];
            var c := h.mac(opts.secret, opts.clientId + "\0" + "select-jitter" + "\0" + Decimal(q) + "\0" + ms[q].raw)[0];
            b < c || (b == c && p < q)
  {
    hide Share;
    ShareLaws(ScoreAt(h, opts, ms), |ms|, opts.maxJitters, opts.density);
    assert ScoreAt(h, opts, ms)(p) == SelectionByte(h, opts, ms, p);
    assert ScoreAt(h, opts, ms)(q) == SelectionByte(h, opts, ms, q);
  }

  /** A shifted number is recorded with the hash of the original. */
  lemma HashMeans(h: Hashes, opts: Options, m: NumberMatch)
    ensures Shifted(h, opts, m).hash == h.hex(opts.secret, "orig-jitter\0" + (opts.clientId + "\0") + m.raw)
  {
    assert "orig-jitter" + "\0" + opts.clientId + "\0" + m.raw == "orig-jitter\0" + (opts.clientId + "\0") + m.raw;
  }

  /** A number is excluded exactly if it shares a character with a range, where no range is turned around. */
  lemma ExcludedMeans(excluded: seq<(int, int)>, m: NumberMatch)
    requires m.start < m.end && forall k :: 0 <= k < |excluded| ==> excluded[k].0 < excluded[k].1
    ensures OverlapsExcluded(excluded, m) <==> exists k: nat, i :: k < |excluded| && Shares(excluded[k], m, i)
  {
    if k: nat :| k < |excluded| && m.start < excluded[k].1 && excluded[k].0 < m.end {
      assert Shares(excluded[k], m, if excluded[k].0 < m.start then m.start else excluded[k].0);
    }
  }

  predicate Shares(x: (int, int), m: NumberMatch, i: int) { m.start <= i && i < m.end && x.0 <= i && i < x.1 }
}
