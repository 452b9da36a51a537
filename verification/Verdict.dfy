/** The tiered verdict over the channel profiles of candidates. */
module Verdict {
  import opened Members
  import opened Prelude
  import opened Sorting

  datatype Channel = Honeytoken | ZeroWidthMarks | HomoglyphMarks | LinguisticDna | SemanticPositional | CascadeHash

  datatype Tier = T0 | T1 | T2 | Auxiliary

  function TierOf(c: Channel): Tier {
    match c
    case Honeytoken => T0
    case ZeroWidthMarks => T1
    case HomoglyphMarks => T1
    case LinguisticDna => T2
    case SemanticPositional => T2
    case CascadeHash => Auxiliary
  }

  datatype Profile = Profile(name: Channel, tier: Tier, score: real, decay: real, vital: bool, present: bool)

  // ---- Building a profile

  function Clamp01(x: real): (r: real)
    ensures 0.0 <= r <= 1.0 && (0.0 <= x <= 1.0 ==> r == x)
  {
    if x < 0.0 then 0.0 else if x > 1.0 then 1.0 else x
  }

  function VitalThreshold(t: Tier): real { if t == T0 || t == Auxiliary then 1.0 else 0.7 }

  function ProfileOf(name: Channel, raw: real, present: bool): Profile {
    var score := Clamp01(raw);
    Profile(name, TierOf(name), score, Clamp01(1.0 - score), present && score >= VitalThreshold(TierOf(name)), present)
  }

  datatype Signal = Signal(score: real, present: bool)

  /** The measured channels; the last two may be missing altogether. */
  datatype Signals = Signals(honeytokenHit: bool, zeroWidth: Signal, homoglyph: Signal, linguisticDna: Signal,
                             semanticPositional: Option<Signal>, cascade: Option<real>)

  function BuiltProfile(s: Signals): seq<Profile> {
    [ProfileOf(Honeytoken, if s.honeytokenHit then 1.0 else 0.0, true),
     ProfileOf(ZeroWidthMarks, s.zeroWidth.score, s.zeroWidth.present),
     ProfileOf(HomoglyphMarks, s.homoglyph.score, s.homoglyph.present),
     ProfileOf(LinguisticDna, s.linguisticDna.score, s.linguisticDna.present),
     (match s.semanticPositional
      case Some(p) => ProfileOf(SemanticPositional, p.score, p.present)
      case None => ProfileOf(SemanticPositional, 0.0, false)),
     (match s.cascade
      case Some(c) => ProfileOf(CascadeHash, c, true)
      case None => ProfileOf(CascadeHash, 0.0, false))]
  }

  method BuildChannelProfile(s: Signals) returns (profiles: seq<Profile>)
    ensures profiles == BuiltProfile(s)
  {
    hide ProfileOf;
    profiles := [ProfileOf(Honeytoken, if s.honeytokenHit then 1.0 else 0.0, true)];
    profiles := profiles + [ProfileOf(ZeroWidthMarks, s.zeroWidth.score, s.zeroWidth.present)];
    profiles := profiles + [ProfileOf(HomoglyphMarks, s.homoglyph.score, s.homoglyph.present)];
    profiles := profiles + [ProfileOf(LinguisticDna, s.linguisticDna.score, s.linguisticDna.present)];
    if s.semanticPositional.Some? {
      profiles := profiles + [ProfileOf(SemanticPositional, s.semanticPositional.value.score, s.semanticPositional.value.present)];
    } else {
      profiles := profiles + [ProfileOf(SemanticPositional, 0.0, false)];
    }
    if s.cascade.Some? {
      profiles := profiles + [ProfileOf(CascadeHash, s.cascade.value, true)];
    } else {
      profiles := profiles + [ProfileOf(CascadeHash, 0.0, false)];
    }
  }

  // ---- Looking channels up

  /** An index by name keeps the last profile of a channel. */
  function Last(ps: seq<Profile>, name: Channel): Option<Profile> {
    if ps == [] then None
    else if ps[|ps| - 1].name == name then Some(ps[|ps| - 1])
    else Last(ps[..|ps| - 1], name)
  }

  /** A search by name stops at the first. */
  function First(ps: seq<Profile>, name: Channel): Option<Profile> {
    if ps == [] then None else if ps[0].name == name then Some(ps[0]) else First(ps[1..], name)
  }

  method IndexProfiles(ps: seq<Profile>) returns (index: map<Channel, Profile>)
    ensures forall c :: Last(ps, c) == if c in index then Some(index[c]) else None
  {
    index := map[];
    for i := 0 to |ps|
      invariant forall c :: Last(ps[..i], c) == if c in index then Some(index[c]) else None
    {
      assert ps[..i + 1][..i] == ps[..i];
      index := index[ps[i].name := ps[i]];
    }
    assert ps[..|ps|] == ps;
  }

  // ---- The rules for one candidate

  predicate Reaches(p: Option<Profile>, threshold: real) { p.Some? && p.value.present && p.value.score >= threshold }

  /** A honeytoken, two strong carriers, or one very strong carrier that the linguistic channel supports. */
  predicate PassesStrong(ps: seq<Profile>) {
    var t0, zw, homo, t2 := Last(ps, Honeytoken), Last(ps, ZeroWidthMarks), Last(ps, HomoglyphMarks), Last(ps, LinguisticDna);
    || (t0.Some? && t0.value.score >= 1.0)
    || (Reaches(zw, 0.7) && Reaches(homo, 0.7))
    || ((Reaches(zw, 0.8) || Reaches(homo, 0.8)) && Reaches(t2, 0.7))
  }

  predicate Notable(p: Profile) { TierOf(p.name) != Auxiliary && p.present && p.score >= 0.5 }

  predicate PassesAmbiguous(ps: seq<Profile>) { exists i :: 0 <= i < |ps| && Notable(ps[i]) }

  method CandidatePassesStrong(ps: seq<Profile>) returns (passes: bool)
    ensures passes == PassesStrong(ps)
  {
    var idx := IndexProfiles(ps);
    hide Last;
    if Honeytoken in idx && idx[Honeytoken].score >= 1.0 {
      return true;
    }
    var t1Strong: seq<Channel> := [];
    if ZeroWidthMarks in idx && idx[ZeroWidthMarks].present && idx[ZeroWidthMarks].score >= 0.7 {
      t1Strong := t1Strong + [ZeroWidthMarks];
    }
    if HomoglyphMarks in idx && idx[HomoglyphMarks].present && idx[HomoglyphMarks].score >= 0.7 {
      t1Strong := t1Strong + [HomoglyphMarks];
    }
    if |t1Strong| >= 2 {
      return true;
    }
    var t1Solo :=
      if ZeroWidthMarks in idx && idx[ZeroWidthMarks].present && idx[ZeroWidthMarks].score >= 0.8 then Some(ZeroWidthMarks)
      else if HomoglyphMarks in idx && idx[HomoglyphMarks].present && idx[HomoglyphMarks].score >= 0.8 then Some(HomoglyphMarks)
      else None;
    passes := t1Solo.Some? && LinguisticDna in idx && idx[LinguisticDna].present && idx[LinguisticDna].score >= 0.7;
  }

  method CandidatePassesAmbiguous(ps: seq<Profile>) returns (passes: bool)
    ensures passes == PassesAmbiguous(ps)
  {
    for i := 0 to |ps|
      invariant forall k :: 0 <= k < i ==> !Notable(ps[k])
    {
      if TierOf(ps[i].name) == Auxiliary {
        continue;
      }
      if !ps[i].present {
        continue;
      }
      if ps[i].score >= 0.5 {
        return true;
      }
    }
    passes := false;
  }

  // ---- Aggregation

  datatype Candidate = Candidate(clientId: string, profile: seq<Profile>, combinedScore: real)

  datatype Decision = Strong | AmbiguousCase | Insufficient

  /** One line of the audit snapshot. */
  datatype Summary = Summary(clientId: string, combinedScore: real, channelScores: map<Channel, real>, passesStrong: bool)

  datatype Aggregate = Aggregate(verdict: Decision, attributed: seq<string>, marginGuardDemoted: bool, multiSuspectDemoted: bool,
                                 margin: Option<real>, strongCount: nat, summaries: seq<Summary>)

  predicate HasHoneytoken(c: Candidate) {
    var t0 := First(c.profile, Honeytoken);
    t0.Some? && t0.value.present && t0.value.score >= 1.0
  }

  /** The clients with honeytoken evidence: those the caller lists, and those whose profile shows it. */
  function Decisive(listed: seq<string>, cs: seq<Candidate>): set<string> {
    (set id | id in listed) + (set c | c in cs && HasHoneytoken(c) :: c.clientId)
  }

  /** Higher combined scores first, equal ones by the collation of client ids. */
  function Better(collates: (string, string) -> bool): ((real, string), (real, string)) -> bool {
    (a: (real, string), b: (real, string)) => a.0 > b.0 || (a.0 == b.0 && collates(a.1, b.1))
  }

  function StandingOf(): Candidate -> (real, string) { (c: Candidate) => (c.combinedScore, c.clientId) }

  function Ranked(collates: (string, string) -> bool, cs: seq<Candidate>): seq<Candidate> {
    Sort(Better(collates), StandingOf(), cs)
  }

  function Ids(cs: seq<Candidate>): (ids: seq<string>)
    ensures |ids| == |cs|
  {
    seq(|cs|, i requires 0 <= i < |cs| => cs[i].clientId)
  }

  function Among(ids: set<string>): Candidate -> bool { (c: Candidate) => c.clientId in ids }

  function Passing(): Candidate -> bool { (c: Candidate) => PassesStrong(c.profile) }

  function ScoreMap(ps: seq<Profile>): map<Channel, real> {
    map c | c in {Honeytoken, ZeroWidthMarks, HomoglyphMarks, LinguisticDna, SemanticPositional, CascadeHash} ::
      if Last(ps, c).Some? then Last(ps, c).value.score else 0.0
  }

  function SummaryOf(c: Candidate): Summary {
    Summary(c.clientId, c.combinedScore, ScoreMap(c.profile), PassesStrong(c.profile))
  }

  function Summaries(cs: seq<Candidate>): (r: seq<Summary>)
    ensures |r| == |cs|
  {
    seq(|cs|, i requires 0 <= i < |cs| => SummaryOf(cs[i]))
  }

  function Margin(ranked: seq<Candidate>): Option<real> {
    if |ranked| < 2 then None else Some(ranked[0].combinedScore - ranked[1].combinedScore)
  }

  /** The decision over candidates in rank order without honeytoken evidence. */
  function Decide(ranked: seq<Candidate>): Aggregate {
    var passing, margin := Filter(ranked, Passing()), Margin(ranked);
    if |passing| >= 2 then
      Aggregate(AmbiguousCase, Ids(passing), false, true, margin, |passing|, Summaries(ranked))
    else if |passing| == 1 then
      if margin.Some? && margin.value < 0.2
      then Aggregate(AmbiguousCase, Ids(ranked[..2]), true, false, margin, 1, Summaries(ranked))
      else Aggregate(Strong, Ids(passing), false, false, margin, 1, Summaries(ranked))
    else if exists i :: 0 <= i < |ranked| && PassesAmbiguous(ranked[i].profile) then
      Aggregate(AmbiguousCase, Ids(ranked[..1]), false, false, margin, 0, Summaries(ranked))
    else
      Aggregate(Insufficient, [], false, false, margin, 0, Summaries(ranked))
  }

  function AggregateOf(collates: (string, string) -> bool, listed: seq<string>, cs: seq<Candidate>): Aggregate {
    var ranked, decisive := Ranked(collates, cs), Decisive(listed, cs);
    if decisive == {} then Decide(ranked)
    else
      var named := Ids(Filter(ranked, Among(decisive)));
      var attributed := if named != [] then named else Mentioned(listed);
      Aggregate(Strong, attributed, false, false, None, |attributed|, Summaries(ranked))
  }

  method FilterPassing(cs: seq<Candidate>) returns (passing: seq<Candidate>)
    ensures passing == Filter(cs, Passing())
  {
    hide PassesStrong;
    passing := [];
    for i := 0 to |cs|
      invariant passing == Filter(cs[..i], Passing())
    {
      assert cs[..i + 1][..i] == cs[..i];
      var passes := CandidatePassesStrong(cs[i].profile);
      if passes {
        passing := passing + [cs[i]];
      }
    }
    assert cs[..|cs|] == cs;
  }

  method CollectDecisive(listed: seq<string>, cs: seq<Candidate>) returns (decisive: set<string>)
    ensures decisive == Decisive(listed, cs)
  {
    hide HasHoneytoken;
    decisive := set id | id in listed;
    for i := 0 to |cs|
      invariant decisive == Decisive(listed, cs[..i])
    {
      assert cs[..i + 1] == cs[..i] + [cs[i]];
      if HasHoneytoken(cs[i]) {
        decisive := decisive + {cs[i].clientId};
      }
    }
    assert cs[..|cs|] == cs;
  }

  method Summarize(cs: seq<Candidate>) returns (summaries: seq<Summary>)
    ensures summaries == Summaries(cs)
  {
    hide PassesStrong, ScoreMap;
    summaries := [];
    for i := 0 to |cs|
      invariant |summaries| == i && forall k :: 0 <= k < i ==> summaries[k] == SummaryOf(cs[k])
    {
      var passes := CandidatePassesStrong(cs[i].profile);
      summaries := summaries + [Summary(cs[i].clientId, cs[i].combinedScore, ScoreMap(cs[i].profile), passes)];
    }
  }

  method AnyAmbiguous(cs: seq<Candidate>) returns (any: bool)
    ensures any <==> exists i :: 0 <= i < |cs| && PassesAmbiguous(cs[i].profile)
  {
    hide PassesAmbiguous;
    any := false;
    for i := 0 to |cs|
      invariant any <==> exists k :: 0 <= k < i && PassesAmbiguous(cs[k].profile)
    {
      var passes := CandidatePassesAmbiguous(cs[i].profile);
      any := any || passes;
    }
  }

  method AggregateTieredVerdict(collates: (string, string) -> bool, listed: seq<string>, cs: seq<Candidate>) returns (r: Aggregate)
    ensures r == AggregateOf(collates, listed, cs)
  {
    hide PassesStrong, PassesAmbiguous, Ranked, Decisive, Summaries, Filter;
    var decisive := CollectDecisive(listed, cs);
    var ranked := Ranked(collates, cs);
    var summaries := Summarize(ranked);
    if decisive != {} {
      var attributed := Ids(Filter(ranked, Among(decisive)));
      if |attributed| == 0 {
        attributed := Mentioned(listed);
      }
      return Aggregate(Strong, attributed, false, false, None, |attributed|, summaries);
    }
    var strongPassing := FilterPassing(ranked);
    var margin := if |ranked| >= 2 then Some(ranked[0].combinedScore - ranked[1].combinedScore) else None;
    var verdict, attributed, marginGuardDemoted, multiSuspectDemoted := Insufficient, [], false, false;
    if |strongPassing| >= 2 {
      multiSuspectDemoted := true;
      verdict := AmbiguousCase;
      attributed := Ids(strongPassing);
    } else if |strongPassing| == 1 {
      if margin.Some? && margin.value < 0.2 {
        marginGuardDemoted := true;
        verdict := AmbiguousCase;
        attributed := Ids(ranked[..2]);
      } else {
        verdict := Strong;
        attributed := Ids(strongPassing);
      }
    } else {
      var anyAmbiguous := AnyAmbiguous(ranked);
      if anyAmbiguous {
        verdict := AmbiguousCase;
        attributed := Ids(ranked[..1]);
      }
    }
    r := Aggregate(verdict, attributed, marginGuardDemoted, multiSuspectDemoted, margin, |strongPassing|, summaries);
  }

  // ---- The profile

  /** Scores are normal, decay is what they lack, and a channel is vital when present and at its tier's threshold. */
  lemma ProfileLaws(name: Channel, raw: real, present: bool)
    ensures var p := ProfileOf(name, raw, present);
            && 0.0 <= p.score <= 1.0 && p.decay == 1.0 - p.score && p.tier == TierOf(p.name) && p.present == present
            && (p.vital <==> p.present && p.score >= if name == Honeytoken || name == CascadeHash then 1.0 else 0.7)
            && (0.0 <= raw <= 1.0 ==> p.score == raw)
  {}

  /** On a built profile the strong rule is a rule on the signals; neither of the two last channels takes part. */
  lemma BuiltStrong(s: Signals)
    ensures PassesStrong(BuiltProfile(s)) <==>
            || s.honeytokenHit
            || (s.zeroWidth.present && s.zeroWidth.score >= 0.7 && s.homoglyph.present && s.homoglyph.score >= 0.7)
            || (((s.zeroWidth.present && s.zeroWidth.score >= 0.8) || (s.homoglyph.present && s.homoglyph.score >= 0.8))
                && s.linguisticDna.present && s.linguisticDna.score >= 0.7)
  {
    BuiltLast(s);
  }

  lemma {:induction false} LastAt(ps: seq<Profile>, name: Channel, k: nat)
    requires k < |ps| && ps[k].name == name && forall j :: k < j < |ps| ==> ps[j].name != name
    ensures Last(ps, name) == Some(ps[k])
  {
    if k < |ps| - 1 {
      LastAt(ps[..|ps| - 1], name, k);
    }
  }

  lemma BuiltLast(s: Signals)
    ensures var ps := BuiltProfile(s);
            && Last(ps, Honeytoken) == Some(ps[0]) && Last(ps, ZeroWidthMarks) == Some(ps[1])
            && Last(ps, HomoglyphMarks) == Some(ps[2]) && Last(ps, LinguisticDna) == Some(ps[3])
  {
    hide Last;
    var ps := BuiltProfile(s);
    LastAt(ps, Honeytoken, 0);
    LastAt(ps, ZeroWidthMarks, 1);
    LastAt(ps, HomoglyphMarks, 2);
    LastAt(ps, LinguisticDna, 3);
  }

  /** The measured signal of a channel; a missing one counts as an absent zero. */
  function SignalOf(s: Signals, c: Channel): Signal {
    match c
    case Honeytoken => Signal(if s.honeytokenHit then 1.0 else 0.0, true)
    case ZeroWidthMarks => s.zeroWidth
    case HomoglyphMarks => s.homoglyph
    case LinguisticDna => s.linguisticDna
    case SemanticPositional => s.semanticPositional.UnwrapOr(Signal(0.0, false))
    case CascadeHash => if s.cascade.Some? then Signal(s.cascade.value, true) else Signal(0.0, false)
  }

  function IndexOf(c: Channel): (k: nat)
    ensures k < 6
  {
    match c
    case Honeytoken => 0
    case ZeroWidthMarks => 1
    case HomoglyphMarks => 2
    case LinguisticDna => 3
    case SemanticPositional => 4
    case CascadeHash => 5
  }

  /**
    * A built profile lists every channel once, so an index and a search find the same entry: that of the measured
    * signal, in the tier of the channel.
    */
  lemma BuiltProfileLaws(s: Signals, c: Channel)
    ensures var ps, signal := BuiltProfile(s), SignalOf(s, c);
            && |ps| == 6 && (forall i, j :: 0 <= i < j < |ps| ==> ps[i].name != ps[j].name)
            && Last(ps, c) == First(ps, c) == Some(ProfileOf(c, signal.score, signal.present))
  {
    hide ProfileOf;
    var ps := BuiltProfile(s);
    BuiltNames(s);
    hide BuiltProfile, Last, First;
    LastAt(ps, c, IndexOf(c));
    FirstAt(ps, c, IndexOf(c));
  }

  lemma BuiltNames(s: Signals)
    ensures var ps := BuiltProfile(s);
            && ps[0].name == Honeytoken && ps[1].name == ZeroWidthMarks && ps[2].name == HomoglyphMarks
            && ps[3].name == LinguisticDna && ps[4].name == SemanticPositional && ps[5].name == CascadeHash && |ps| == 6
            && forall c, signal | signal == SignalOf(s, c) :: ps[IndexOf(c)] == ProfileOf(c, signal.score, signal.present)
  {}

  lemma {:induction false} FirstAt(ps: seq<Profile>, name: Channel, k: nat)
    requires k < |ps| && ps[k].name == name && forall j :: 0 <= j < k ==> ps[j].name != name
    ensures First(ps, name) == Some(ps[k])
  {
    if k > 0 {
      FirstAt(ps[1..], name, k - 1);
    }
  }

  /** On a built profile the weak rule asks for one present, non-auxiliary signal of at least a half. */
  lemma BuiltAmbiguous(s: Signals)
    ensures PassesAmbiguous(BuiltProfile(s)) <==>
            exists c :: c != CascadeHash && SignalOf(s, c).present && SignalOf(s, c).score >= 0.5
  {
    var ps := BuiltProfile(s);
    BuiltNames(s);
    forall i | 0 <= i < 6
      ensures Notable(ps[i]) <==> ps[i].name != CascadeHash && SignalOf(s, ps[i].name).present && SignalOf(s, ps[i].name).score >= 0.5
    {}
    hide Notable;
    forall c: Channel
      ensures ps[IndexOf(c)].name == c
    {}
  }

  // ---- The cascade channel takes no part

  /** The profiles of all other channels, in order. */
  function WithoutCascade(ps: seq<Profile>): seq<Profile> {
    if ps == [] then []
    else WithoutCascade(ps[..|ps| - 1]) + (if ps[|ps| - 1].name == CascadeHash then [] else [ps[|ps| - 1]])
  }

  lemma {:induction false} CascadeIsSkipped(ps: seq<Profile>, name: Channel)
    requires name != CascadeHash
    ensures Last(WithoutCascade(ps), name) == Last(ps, name)
    ensures First(WithoutCascade(ps), name) == First(ps, name)
    ensures PassesAmbiguous(WithoutCascade(ps)) <==> PassesAmbiguous(ps)
  {
    if ps != [] {
      var front, last := ps[..|ps| - 1], ps[|ps| - 1];
      CascadeIsSkipped(front, name);
      assert ps == front + [last];
      FirstOfConcat(front, [last], name);
      AmbiguousOfConcat(front, [last]);
      OneProfile(last, name);
      if last.name == CascadeHash {
        assert WithoutCascade(ps) == WithoutCascade(front);
      } else {
        assert (WithoutCascade(front) + [last])[..|WithoutCascade(front)|] == WithoutCascade(front);
        FirstOfConcat(WithoutCascade(front), [last], name);
        AmbiguousOfConcat(WithoutCascade(front), [last]);
      }
    }
  }

  lemma OneProfile(p: Profile, name: Channel)
    ensures First([p], name) == Last([p], name) == if p.name == name then Some(p) else None
    ensures PassesAmbiguous([p]) <==> Notable(p)
  {
    assert [p][1..] == [p][..0] == [];
    assert Notable([p][0]) == Notable(p);
  }

  lemma {:induction false} FirstOfConcat(x: seq<Profile>, y: seq<Profile>, name: Channel)
    ensures First(x + y, name) == if First(x, name).Some? then First(x, name) else First(y, name)
  {
    if x == [] {
      assert x + y == y;
    } else {
      FirstOfConcat(x[1..], y, name);
      assert (x + y)[1..] == x[1..] + y;
    }
  }

  lemma AmbiguousOfConcat(x: seq<Profile>, y: seq<Profile>)
    ensures PassesAmbiguous(x + y) <==> PassesAmbiguous(x) || PassesAmbiguous(y)
  {
    hide Notable;
    forall i | 0 <= i < |x|
      ensures (x + y)[i] == x[i]
    {}
    forall i | 0 <= i < |y|
      ensures (x + y)[|x| + i] == y[i]
    {}
    if PassesAmbiguous(x + y) {
      var i :| 0 <= i < |x + y| && Notable((x + y)[i]);
      assert i < |x| || Notable(y[i - |x|]);
    }
    if PassesAmbiguous(x) {
      var i :| 0 <= i < |x| && Notable(x[i]);
      assert Notable((x + y)[i]);
    }
    if PassesAmbiguous(y) {
      var i :| 0 <= i < |y| && Notable(y[i]);
      assert Notable((x + y)[|x| + i]);
    }
  }

  /** The same candidate but for cascade entries: changed, added, removed or moved. */
  ghost predicate AlikeButCascade(a: Candidate, b: Candidate) {
    a.clientId == b.clientId && a.combinedScore == b.combinedScore && WithoutCascade(a.profile) == WithoutCascade(b.profile)
  }

  lemma AlikeRules(a: Candidate, b: Candidate)
    requires AlikeButCascade(a, b)
    ensures PassesStrong(a.profile) == PassesStrong(b.profile) && PassesAmbiguous(a.profile) == PassesAmbiguous(b.profile)
    ensures HasHoneytoken(a) == HasHoneytoken(b)
  {
    hide Last, First, PassesAmbiguous;
    forall name: Channel | name != CascadeHash
      ensures Last(a.profile, name) == Last(b.profile, name) && First(a.profile, name) == First(b.profile, name)
      ensures PassesAmbiguous(a.profile) == PassesAmbiguous(b.profile)
    {
      CascadeIsSkipped(a.profile, name);
      CascadeIsSkipped(b.profile, name);
    }
    assert Honeytoken != CascadeHash;
    CascadeIsSkipped(a.profile, Honeytoken);
    CascadeIsSkipped(b.profile, Honeytoken);
  }

  ghost predicate AllAlike(cs: seq<Candidate>, ds: seq<Candidate>) {
    |cs| == |ds| && forall i :: 0 <= i < |cs| ==> AlikeButCascade(cs[i], ds[i])
  }

  lemma {:induction false} AlikeInsert(leq: ((real, string), (real, string)) -> bool, a: Candidate, b: Candidate, cs: seq<Candidate>,
                                       ds: seq<Candidate>)
    requires AlikeButCascade(a, b) && AllAlike(cs, ds)
    ensures AllAlike(Insert(leq, StandingOf(), a, cs), Insert(leq, StandingOf(), b, ds))
  {
    hide AlikeButCascade;
    var n := |cs| - 1;
    if cs != [] {
      assert AlikeButCascade(cs[n], ds[n]);
      AlikeStand(cs[n], ds[n]);
      AlikeStand(a, b);
      if !leq(StandingOf()(cs[n]), StandingOf()(a)) {
        AlikeInsert(leq, a, b, cs[..n], ds[..n]);
      }
    }
  }

  lemma AlikeStand(a: Candidate, b: Candidate)
    requires AlikeButCascade(a, b)
    ensures StandingOf()(a) == StandingOf()(b)
  {}

  lemma {:induction false} AlikeSort(leq: ((real, string), (real, string)) -> bool, cs: seq<Candidate>, ds: seq<Candidate>)
    requires AllAlike(cs, ds)
    ensures AllAlike(Sort(leq, StandingOf(), cs), Sort(leq, StandingOf(), ds))
  {
    hide AlikeButCascade;
    if cs != [] {
      var n := |cs| - 1;
      AlikeSort(leq, cs[..n], ds[..n]);
      AlikeInsert(leq, cs[n], ds[n], Sort(leq, StandingOf(), cs[..n]), Sort(leq, StandingOf(), ds[..n]));
    }
  }

  lemma {:induction false} AlikeFilter(cs: seq<Candidate>, ds: seq<Candidate>, p: Candidate -> bool)
    requires AllAlike(cs, ds) && forall i :: 0 <= i < |cs| ==> p(cs[i]) == p(ds[i])
    ensures AllAlike(Filter(cs, p), Filter(ds, p))
  {
    hide AlikeButCascade;
    if cs != [] {
      var n := |cs| - 1;
      AlikeFilter(cs[..n], ds[..n], p);
      assert AlikeButCascade(cs[n], ds[n]);
    }
  }

  lemma AlikeIds(cs: seq<Candidate>, ds: seq<Candidate>)
    requires AllAlike(cs, ds)
    ensures Ids(cs) == Ids(ds)
  {}

  lemma AlikePrefix(cs: seq<Candidate>, ds: seq<Candidate>, n: nat)
    requires AllAlike(cs, ds) && n <= |cs|
    ensures n <= |ds| && AllAlike(cs[..n], ds[..n])
  {}

  lemma AlikeAll(cs: seq<Candidate>, ds: seq<Candidate>, i: nat)
    requires AllAlike(cs, ds) && i < |cs|
    ensures cs[i].clientId == ds[i].clientId && cs[i].combinedScore == ds[i].combinedScore
    ensures PassesStrong(cs[i].profile) == PassesStrong(ds[i].profile)
    ensures PassesAmbiguous(cs[i].profile) == PassesAmbiguous(ds[i].profile) && HasHoneytoken(cs[i]) == HasHoneytoken(ds[i])
  {
    AlikeRules(cs[i], ds[i]);
  }

  lemma AlikeDecisive(listed: seq<string>, cs: seq<Candidate>, ds: seq<Candidate>)
    requires AllAlike(cs, ds)
    ensures Decisive(listed, cs) == Decisive(listed, ds)
  {
    hide AlikeButCascade, HasHoneytoken;
    forall i: nat | i < |cs|
      ensures cs[i].clientId == ds[i].clientId && HasHoneytoken(cs[i]) == HasHoneytoken(ds[i])
    {
      AlikeAll(cs, ds, i);
    }
    forall id
      ensures id in Decisive(listed, cs) <==> id in Decisive(listed, ds)
    {
      if c :| c in cs && HasHoneytoken(c) && c.clientId == id {
        var i :| 0 <= i < |cs| && cs[i] == c;
        assert ds[i] in ds;
      }
      if c :| c in ds && HasHoneytoken(c) && c.clientId == id {
        var i :| 0 <= i < |ds| && ds[i] == c;
        assert cs[i] in cs;
      }
    }
  }

  ghost predicate SameDecision(a: Aggregate, b: Aggregate) {
    && a.verdict == b.verdict && a.attributed == b.attributed && a.marginGuardDemoted == b.marginGuardDemoted
    && a.multiSuspectDemoted == b.multiSuspectDemoted && a.margin == b.margin && a.strongCount == b.strongCount
  }

  lemma AlikeDecide(a: seq<Candidate>, b: seq<Candidate>)
    requires AllAlike(a, b)
    ensures SameDecision(Decide(a), Decide(b))
  {
    hide AllAlike, PassesStrong, PassesAmbiguous, Filter, Ids;
    AlikeSizes(a, b);
    forall i: nat | i < |a|
      ensures a[i].combinedScore == b[i].combinedScore && PassesStrong(a[i].profile) == PassesStrong(b[i].profile)
      ensures PassesAmbiguous(a[i].profile) == PassesAmbiguous(b[i].profile)
    {
      AlikeAll(a, b, i);
    }
    var p := Passing();
    AlikeFilter(a, b, p);
    AlikeSizes(Filter(a, p), Filter(b, p));
    AlikeIds(Filter(a, p), Filter(b, p));
    if |a| >= 1 {
      AlikePrefix(a, b, 1);
      AlikeIds(a[..1], b[..1]);
    }
    if |a| >= 2 {
      AlikePrefix(a, b, 2);
      AlikeIds(a[..2], b[..2]);
    }
  }

  /** Changing cascade entries changes no verdict, no attribution, no guard flag and no margin. */
  lemma CascadeIsMute(collates: (string, string) -> bool, listed: seq<string>, cs: seq<Candidate>, ds: seq<Candidate>)
    requires AllAlike(cs, ds)
    ensures SameDecision(AggregateOf(collates, listed, cs), AggregateOf(collates, listed, ds))
  {
    hide AllAlike, Decisive, Filter, Decide, Ids;
    var a, b := Ranked(collates, cs), Ranked(collates, ds);
    AlikeSort(Better(collates), cs, ds);
    AlikeDecisive(listed, cs, ds);
    AlikeDecide(a, b);
    AlikeSizes(a, b);
    forall i: nat | i < |a|
      ensures a[i].clientId == b[i].clientId
    {
      AlikeAll(a, b, i);
    }
    var p := Among(Decisive(listed, cs));
    AlikeFilter(a, b, p);
    AlikeIds(Filter(a, p), Filter(b, p));
  }

  lemma AlikeSizes(cs: seq<Candidate>, ds: seq<Candidate>)
    requires AllAlike(cs, ds)
    ensures |cs| == |ds|
  {}

  // ---- The order of candidates does not matter

  lemma BetterIsPreorder(collates: (string, string) -> bool)
    requires TotalPreorder(collates)
    ensures TotalPreorder(Better(collates))
  {
    var leq := Better(collates);
    forall a: (real, string), b: (real, string)
      ensures leq(a, b) || leq(b, a)
    {
      assert collates(a.1, b.1) || collates(b.1, a.1);
    }
    forall a: (real, string), b: (real, string), c: (real, string)
      ensures leq(a, b) && leq(b, c) ==> leq(a, c)
    {
      assert collates(a.1, b.1) && collates(b.1, c.1) ==> collates(a.1, c.1);
    }
  }

  ghost predicate DistinctIds(cs: seq<Candidate>) {
    forall i, j :: 0 <= i < j < |cs| ==> cs[i].clientId != cs[j].clientId
  }

  lemma DistinctIdsPermute(cs: seq<Candidate>, ds: seq<Candidate>)
    requires DistinctIds(cs) && multiset(cs) == multiset(ds)
    ensures DistinctIds(ds)
  {
    forall i, j | 0 <= i < j < |ds|
      ensures ds[i].clientId != ds[j].clientId
    {
      TwoMembers(ds, i, j);
      if ds[i].clientId == ds[j].clientId {
        SameId(cs, ds[i], ds[j]);
        MemberOnce(cs, ds[i]);
        assert false;
      }
    }
  }

  lemma TwoMembers(ds: seq<Candidate>, i: nat, j: nat)
    requires i < j < |ds|
    ensures ds[i] in multiset(ds) && ds[j] in multiset(ds) && (ds[i] == ds[j] ==> multiset(ds)[ds[i]] >= 2)
  {
    assert ds == ds[..i] + [ds[i]] + ds[i + 1..j] + [ds[j]] + ds[j + 1..];
  }

  lemma SameId(cs: seq<Candidate>, a: Candidate, b: Candidate)
    requires DistinctIds(cs) && a in multiset(cs) && b in multiset(cs) && a.clientId == b.clientId
    ensures a == b
  {
    var i :| 0 <= i < |cs| && cs[i] == a;
    var j :| 0 <= j < |cs| && cs[j] == b;
  }

  lemma {:induction false} MemberOnce(cs: seq<Candidate>, a: Candidate)
    requires DistinctIds(cs)
    ensures multiset(cs)[a] <= 1
  {
    if cs != [] {
      var n := |cs| - 1;
      assert cs == cs[..n] + [cs[n]];
      MemberOnce(cs[..n], a);
      assert forall i :: 0 <= i < n ==> cs[i].clientId != cs[n].clientId;
      assert cs[n] !in cs[..n];
    }
  }

  /** Different candidates of equal score with ids that the collation holds for equal. */
  ghost predicate HasTie(collates: (string, string) -> bool, cs: seq<Candidate>) {
    exists c, d :: c in cs && d in cs && c != d && c.combinedScore == d.combinedScore && Ties(collates, c.clientId, d.clientId)
  }

  lemma TiesAreTies(collates: (string, string) -> bool, cs: seq<Candidate>)
    ensures NoTies(Better(collates), StandingOf(), cs) <==> !HasTie(collates, cs)
  {
    forall c: Candidate, d: Candidate
      ensures Ties(Better(collates), StandingOf()(c), StandingOf()(d)) <==>
              c.combinedScore == d.combinedScore && Ties(collates, c.clientId, d.clientId)
    {}
  }

  /** The ranking is the same for every order of the candidates if and only if no two of equal score collate equal. */
  lemma RankingIgnoresOrder(collates: (string, string) -> bool, cs: seq<Candidate>)
    requires TotalPreorder(collates)
    ensures (forall ds :: multiset(ds) == multiset(cs) ==> Ranked(collates, ds) == Ranked(collates, cs)) <==> !HasTie(collates, cs)
  {
    BetterIsPreorder(collates);
    TiesAreTies(collates, cs);
    OrderMattersForTies(Better(collates), StandingOf(), cs);
    hide TotalPreorder, HasTie, NoTies;
    if !HasTie(collates, cs) {
      forall ds | multiset(ds) == multiset(cs)
        ensures Ranked(collates, ds) == Ranked(collates, cs)
      {
        assert Sort(Better(collates), StandingOf(), ds) == Sort(Better(collates), StandingOf(), cs);
      }
    } else {
      var ds :| multiset(ds) == multiset(cs) && Sort(Better(collates), StandingOf(), ds) != Sort(Better(collates), StandingOf(), cs);
      assert Ranked(collates, ds) != Ranked(collates, cs);
    }
  }

  function ScoreOf(): Candidate -> real { (c: Candidate) => c.combinedScore }

  function IdOf(): Candidate -> string { (c: Candidate) => c.clientId }

  function Falling(): (real, real) -> bool { (a: real, b: real) => a >= b }

  /** The scores in rank order do not depend on how ties are broken. */
  lemma ScoresIgnoreOrder(collates: (string, string) -> bool, cs: seq<Candidate>, ds: seq<Candidate>)
    requires TotalPreorder(collates) && multiset(cs) == multiset(ds)
    ensures Map(Ranked(collates, cs), ScoreOf()) == Map(Ranked(collates, ds), ScoreOf())
    ensures multiset(Ranked(collates, cs)) == multiset(Ranked(collates, ds))
  {
    var a, b := Ranked(collates, cs), Ranked(collates, ds);
    BetterIsPreorder(collates);
    SortPermutes(Better(collates), StandingOf(), cs);
    SortPermutes(Better(collates), StandingOf(), ds);
    SortSorts(Better(collates), StandingOf(), cs);
    SortSorts(Better(collates), StandingOf(), ds);
    hide TotalPreorder, Ranked;
    MapPermutes(a, b, ScoreOf());
    ScoresFall(collates, a);
    ScoresFall(collates, b);
    FallingIsPreorder();
    SortedPermutationsAgree(Falling(), Map(a, ScoreOf()), Map(b, ScoreOf()));
  }

  lemma ScoresFall(collates: (string, string) -> bool, ranked: seq<Candidate>)
    requires Sorted(Better(collates), StandingOf(), ranked)
    ensures Sorted(Falling(), Itself(), Map(ranked, ScoreOf()))
  {
    forall i, j | 0 <= i < j < |ranked|
      ensures ranked[i].combinedScore >= ranked[j].combinedScore
    {
      assert Better(collates)(StandingOf()(ranked[i]), StandingOf()(ranked[j]));
    }
  }

  lemma FallingIsPreorder()
    ensures TotalPreorder(Falling()) && forall s: seq<real> :: NoTies(Falling(), Itself(), s)
  {}

  ghost predicate SameStanding(a: Aggregate, b: Aggregate) {
    && a.verdict == b.verdict && a.marginGuardDemoted == b.marginGuardDemoted && a.multiSuspectDemoted == b.multiSuspectDemoted
    && a.margin == b.margin && a.strongCount == b.strongCount
    && (a.verdict == Strong || a.multiSuspectDemoted ==> multiset(a.attributed) == multiset(b.attributed))
  }

  lemma SameIds(a: seq<Candidate>, b: seq<Candidate>)
    requires multiset(a) == multiset(b)
    ensures multiset(Ids(a)) == multiset(Ids(b)) && |a| == |b|
  {
    MapPermutes(a, b, IdOf());
    assert Ids(a) == Map(a, IdOf()) && Ids(b) == Map(b, IdOf());
    SameLength(a, b);
  }

  lemma DecideIgnoresOrder(a: seq<Candidate>, b: seq<Candidate>)
    requires multiset(a) == multiset(b) && Map(a, ScoreOf()) == Map(b, ScoreOf())
    ensures SameStanding(Decide(a), Decide(b))
  {
    hide PassesStrong, PassesAmbiguous, Filter, Ids;
    var p := Passing();
    FilterPermutes(a, b, p);
    SameIds(Filter(a, p), Filter(b, p));
    SameIds(a, b);
    SameMembers(a, b);
    AnyMember(a);
    AnyMember(b);
    forall i | 0 <= i < |a|
      ensures a[i].combinedScore == b[i].combinedScore
    {
      assert Map(a, ScoreOf())[i] == Map(b, ScoreOf())[i];
    }
  }

  /**
    * Whatever the order of the candidates: the verdict, both guard flags, the margin and the number of strong
    * candidates are the same, a strong or multi-suspect verdict names the same clients, and without ties the whole
    * result is the same.
    */
  lemma OrderIsMute(collates: (string, string) -> bool, listed: seq<string>, cs: seq<Candidate>, ds: seq<Candidate>)
    requires TotalPreorder(collates) && multiset(cs) == multiset(ds)
    ensures SameStanding(AggregateOf(collates, listed, cs), AggregateOf(collates, listed, ds))
    ensures !HasTie(collates, cs) ==> AggregateOf(collates, listed, cs) == AggregateOf(collates, listed, ds)
  {
    hide HasHoneytoken, Decide, Filter, Ids, SameStanding, HasTie;
    SameMembers(cs, ds);
    assert Decisive(listed, cs) == Decisive(listed, ds);
    var decisive := Decisive(listed, cs);
    hide Decisive;
    ScoresIgnoreOrder(collates, cs, ds);
    RankingIgnoresOrder(collates, cs);
    hide TotalPreorder, Ranked;
    var a, b := Ranked(collates, cs), Ranked(collates, ds);
    DecideIgnoresOrder(a, b);
    FilterPermutes(a, b, Among(decisive));
    SameIds(Filter(a, Among(decisive)), Filter(b, Among(decisive)));
    var named, named' := Ids(Filter(a, Among(decisive))), Ids(Filter(b, Among(decisive)));
    SameLength(named, named');
    if decisive != {} {
      NamedSame(AggregateOf(collates, listed, cs), AggregateOf(collates, listed, ds));
    }
  }

  lemma NamedSame(a: Aggregate, b: Aggregate)
    requires a.verdict == b.verdict == Strong && multiset(a.attributed) == multiset(b.attributed)
    requires a.strongCount == |a.attributed| && b.strongCount == |b.attributed| && a.margin == b.margin
    requires !a.marginGuardDemoted && !b.marginGuardDemoted && !a.multiSuspectDemoted && !b.multiSuspectDemoted
    ensures SameStanding(a, b)
  {
    SameLength(a.attributed, b.attributed);
  }

  /** With distinct ids, the whole result is the same for every order if and only if there is no tie. */
  lemma ResultIgnoresOrder(collates: (string, string) -> bool, listed: seq<string>, cs: seq<Candidate>)
    requires TotalPreorder(collates) && DistinctIds(cs)
    ensures (forall ds :: multiset(ds) == multiset(cs) ==> AggregateOf(collates, listed, ds) == AggregateOf(collates, listed, cs))
            <==> !HasTie(collates, cs)
  {
    hide TotalPreorder, HasTie, DistinctIds, AggregateOf, Ranked;
    forall ds | multiset(ds) == multiset(cs)
      ensures !HasTie(collates, cs) ==> AggregateOf(collates, listed, ds) == AggregateOf(collates, listed, cs)
      ensures AggregateOf(collates, listed, ds) == AggregateOf(collates, listed, cs) ==> Ranked(collates, ds) == Ranked(collates, cs)
    {
      OrderIsMute(collates, listed, cs, ds);
      if AggregateOf(collates, listed, ds) == AggregateOf(collates, listed, cs) {
        ResultShowsRanking(collates, listed, cs, ds);
      }
    }
    RankingIgnoresOrder(collates, cs);
  }

  lemma ResultShowsRanking(collates: (string, string) -> bool, listed: seq<string>, cs: seq<Candidate>, ds: seq<Candidate>)
    requires TotalPreorder(collates) && DistinctIds(cs) && multiset(cs) == multiset(ds)
    requires AggregateOf(collates, listed, cs).summaries == AggregateOf(collates, listed, ds).summaries
    ensures Ranked(collates, cs) == Ranked(collates, ds)
  {
    hide SummaryOf, DistinctIds, TotalPreorder, AggregateOf;
    ScoresIgnoreOrder(collates, cs, ds);
    SortPermutes(Better(collates), StandingOf(), cs);
    SummariesInRankOrder(collates, listed, cs);
    SummariesInRankOrder(collates, listed, ds);
    var a, b := Ranked(collates, cs), Ranked(collates, ds);
    assert multiset(a) == multiset(cs);
    hide Ranked;
    SameLength(a, b);
    forall i | 0 <= i < |a|
      ensures a[i] == b[i]
    {
      assert Summaries(a)[i] == Summaries(b)[i];
      SummaryShowsId(a[i]);
      SummaryShowsId(b[i]);
      assert a[i] in multiset(a) && b[i] in multiset(b);
      SameId(cs, a[i], b[i]);
    }
  }

  lemma SummariesInRankOrder(collates: (string, string) -> bool, listed: seq<string>, cs: seq<Candidate>)
    ensures AggregateOf(collates, listed, cs).summaries == Summaries(Ranked(collates, cs))
  {
    hide Ranked, Decisive, Filter, Ids, Summaries, PassesAmbiguous;
  }

  lemma SummaryShowsId(c: Candidate)
    ensures SummaryOf(c).clientId == c.clientId
  {}

  // ---- When the order of candidates matters for the attribution

  /** Ranks `i` and `i + 1`, counted from 0, may be exchanged. */
  predicate TieAt(collates: (string, string) -> bool, ranked: seq<Candidate>, i: nat) {
    && i + 1 < |ranked| && ranked[i].combinedScore == ranked[i + 1].combinedScore
    && Ties(collates, ranked[i].clientId, ranked[i + 1].clientId)
  }

  /** A weak verdict whose first two ranks tie, or a margin demotion whose second and third do. */
  predicate NamedByOrder(collates: (string, string) -> bool, ranked: seq<Candidate>, r: Aggregate) {
    || (r.verdict == AmbiguousCase && r.strongCount == 0 && TieAt(collates, ranked, 0))
    || (r.marginGuardDemoted && TieAt(collates, ranked, 1))
  }

  lemma TieAtIsTie(collates: (string, string) -> bool, ranked: seq<Candidate>, i: nat)
    requires i + 1 < |ranked|
    ensures TieAt(collates, ranked, i) <==> Ties(Better(collates), StandingOf()(ranked[i]), StandingOf()(ranked[i + 1]))
  {}

  /** Where no tie crosses the border, the same candidates are ranked in front of it. */
  lemma FrontStays(collates: (string, string) -> bool, cs: seq<Candidate>, ds: seq<Candidate>, n: nat)
    requires TotalPreorder(collates) && multiset(cs) == multiset(ds)
    requires 0 < n <= |cs| && !TieAt(collates, Ranked(collates, cs), n - 1)
    ensures |ds| == |Ranked(collates, cs)| == |Ranked(collates, ds)| == |cs|
    ensures multiset(Ranked(collates, cs)[..n]) == multiset(Ranked(collates, ds)[..n])
  {
    var a, b := Ranked(collates, cs), Ranked(collates, ds);
    BetterIsPreorder(collates);
    SortPermutes(Better(collates), StandingOf(), cs);
    SortPermutes(Better(collates), StandingOf(), ds);
    SortSorts(Better(collates), StandingOf(), cs);
    SortSorts(Better(collates), StandingOf(), ds);
    hide TotalPreorder, Ranked, TieAt;
    SameLength(a, b);
    if n < |a| {
      TieAtIsTie(collates, a, n - 1);
      SameFront(Better(collates), StandingOf(), a, b, n);
    } else {
      assert a[..n] == a && b[..n] == b;
    }
  }

  lemma AttributedStays(a: seq<Candidate>, b: seq<Candidate>)
    requires multiset(a) == multiset(b) && Map(a, ScoreOf()) == Map(b, ScoreOf())
    requires Decide(a).verdict == AmbiguousCase && Decide(a).strongCount == 0 ==>
               a != [] && b != [] && multiset(a[..1]) == multiset(b[..1])
    requires Decide(a).marginGuardDemoted ==> |a| >= 2 && |b| >= 2 && multiset(a[..2]) == multiset(b[..2])
    ensures multiset(Decide(a).attributed) == multiset(Decide(b).attributed)
  {
    hide Decide, PassesStrong, PassesAmbiguous, Map;
    DecideIgnoresOrder(a, b);
    if Decide(a).marginGuardDemoted {
      TwoNamedStay(a, b);
    } else if Decide(a).verdict == AmbiguousCase && Decide(a).strongCount == 0 {
      OneNamedStays(a, b);
    } else {
      OtherwiseNobody(a);
      OtherwiseNobody(b);
    }
  }

  lemma TwoNamedStay(a: seq<Candidate>, b: seq<Candidate>)
    requires Decide(a).marginGuardDemoted && Decide(b).marginGuardDemoted
    requires |a| >= 2 && |b| >= 2 && multiset(a[..2]) == multiset(b[..2])
    ensures multiset(Decide(a).attributed) == multiset(Decide(b).attributed)
  {
    hide Decide;
    MarginNamesTwo(a);
    MarginNamesTwo(b);
    SameIds(a[..2], b[..2]);
    assert Ids(a[..2]) == Decide(a).attributed && Ids(b[..2]) == Decide(b).attributed;
  }

  lemma OneNamedStays(a: seq<Candidate>, b: seq<Candidate>)
    requires Decide(a).verdict == Decide(b).verdict == AmbiguousCase && Decide(a).strongCount == Decide(b).strongCount == 0
    requires a != [] && b != [] && multiset(a[..1]) == multiset(b[..1])
    ensures multiset(Decide(a).attributed) == multiset(Decide(b).attributed)
  {
    hide Decide;
    WeakNamesFirst(a);
    WeakNamesFirst(b);
    SameIds(a[..1], b[..1]);
    assert Ids(a[..1]) == Decide(a).attributed && Ids(b[..1]) == Decide(b).attributed;
  }

  lemma OtherwiseNobody(ranked: seq<Candidate>)
    ensures var r := Decide(ranked);
            r.verdict == Strong || r.multiSuspectDemoted || r.marginGuardDemoted || r.attributed == []
            || (r.verdict == AmbiguousCase && r.strongCount == 0)
  {
    hide PassesStrong, PassesAmbiguous, Filter, Ids, Summaries;
  }

  /** Exchanging two ranks that tie gives another order of the candidates, which is ranked as it stands. */
  lemma ExchangedRank(collates: (string, string) -> bool, cs: seq<Candidate>, i: nat) returns (t: seq<Candidate>)
    requires TotalPreorder(collates) && TieAt(collates, Ranked(collates, cs), i)
    ensures var a := Ranked(collates, cs);
            && i + 1 < |a| && t == a[i := a[i + 1]][i + 1 := a[i]] && multiset(t) == multiset(a) == multiset(cs)
            && Ranked(collates, t) == t && Ranked(collates, a) == a
  {
    var a := Ranked(collates, cs);
    t := a[i := a[i + 1]][i + 1 := a[i]];
    BetterIsPreorder(collates);
    SortPermutes(Better(collates), StandingOf(), cs);
    SortSorts(Better(collates), StandingOf(), cs);
    TieAtIsTie(collates, a, i);
    ExchangeSorted(Better(collates), StandingOf(), a, i);
    SortOfSorted(Better(collates), StandingOf(), a);
    SortOfSorted(Better(collates), StandingOf(), t);
  }

  lemma WeakNamesFirst(ranked: seq<Candidate>)
    requires Decide(ranked).verdict == AmbiguousCase && Decide(ranked).strongCount == 0
    ensures ranked != [] && Decide(ranked).attributed == [ranked[0].clientId]
  {
    hide PassesStrong, PassesAmbiguous, Filter;
  }

  lemma MarginNamesTwo(ranked: seq<Candidate>)
    requires Decide(ranked).marginGuardDemoted
    ensures |ranked| >= 2 && Decide(ranked).attributed == [ranked[0].clientId, ranked[1].clientId]
  {
    hide PassesStrong, PassesAmbiguous, Filter;
  }

  /** Another order of the candidates names others, if ranks tie that the attribution tells apart. */
  lemma SomeOrderNamesOthers(collates: (string, string) -> bool, cs: seq<Candidate>) returns (t: seq<Candidate>)
    requires TotalPreorder(collates) && DistinctIds(cs) && NamedByOrder(collates, Ranked(collates, cs), Decide(Ranked(collates, cs)))
    ensures multiset(t) == multiset(cs)
    ensures multiset(Decide(Ranked(collates, t)).attributed) != multiset(Decide(Ranked(collates, cs)).attributed)
  {
    hide TotalPreorder, DistinctIds, Ranked, PassesStrong, PassesAmbiguous, Filter;
    var a := Ranked(collates, cs);
    var weak := Decide(a).verdict == AmbiguousCase && Decide(a).strongCount == 0;
    var i := if weak then 0 else 1;
    t := ExchangedRank(collates, cs, i);
    ScoresIgnoreOrder(collates, a, t);
    DecideIgnoresOrder(a, t);
    DistinctIdsPermute(cs, a);
    IdsDiffer(a);
    hide Decide;
    if weak {
      WeakNamesFirst(a);
      WeakNamesFirst(t);
      assert a[1].clientId in multiset([t[0].clientId]);
    } else {
      MarginNamesTwo(a);
      MarginNamesTwo(t);
      assert a[2].clientId in multiset([t[0].clientId, t[1].clientId]);
    }
  }

  lemma IdsDiffer(cs: seq<Candidate>)
    requires DistinctIds(cs)
    ensures forall i, j :: 0 <= i < j < |cs| ==> cs[i].clientId != cs[j].clientId
  {}

  /**
    * With distinct ids, the same clients are named for every order of the candidates if and only if it is neither a
    * weak verdict with a tie of the first two ranks nor a margin demotion with a tie of the second and third.
    */
  lemma AttributionIgnoresOrder(collates: (string, string) -> bool, listed: seq<string>, cs: seq<Candidate>)
    requires TotalPreorder(collates) && DistinctIds(cs)
    ensures (forall ds :: multiset(ds) == multiset(cs) ==>
               multiset(AggregateOf(collates, listed, ds).attributed) == multiset(AggregateOf(collates, listed, cs).attributed))
            <==> !NamedByOrder(collates, Ranked(collates, cs), AggregateOf(collates, listed, cs))
  {
    hide TotalPreorder, DistinctIds, Decide, Ranked, Filter, Ids, HasHoneytoken, TieAt;
    var r := AggregateOf(collates, listed, cs);
    if NamedByOrder(collates, Ranked(collates, cs), r) {
      assert Decisive(listed, cs) == {};
      var t := SomeOrderNamesOthers(collates, cs);
      SameMembers(t, cs);
      assert Decisive(listed, t) == Decisive(listed, cs);
      assert multiset(AggregateOf(collates, listed, t).attributed) != multiset(r.attributed);
    } else {
      forall ds | multiset(ds) == multiset(cs)
        ensures multiset(AggregateOf(collates, listed, ds).attributed) == multiset(r.attributed)
      {
        NamedAlike(collates, listed, cs, ds);
      }
    }
  }

  lemma NamedAlike(collates: (string, string) -> bool, listed: seq<string>, cs: seq<Candidate>, ds: seq<Candidate>)
    requires TotalPreorder(collates) && multiset(cs) == multiset(ds)
    requires !NamedByOrder(collates, Ranked(collates, cs), AggregateOf(collates, listed, cs))
    ensures multiset(AggregateOf(collates, listed, ds).attributed) == multiset(AggregateOf(collates, listed, cs).attributed)
  {
    hide TotalPreorder, Ranked, Filter, Ids, HasHoneytoken, TieAt, PassesStrong, PassesAmbiguous;
    OrderIsMute(collates, listed, cs, ds);
    SameMembers(cs, ds);
    assert Decisive(listed, cs) == Decisive(listed, ds);
    if Decisive(listed, cs) == {} {
      hide Decisive;
      var a, b := Ranked(collates, cs), Ranked(collates, ds);
      ScoresIgnoreOrder(collates, cs, ds);
      RankedMembers(collates, cs);
      RankedLength(collates, cs);
      if Decide(a).verdict == AmbiguousCase && Decide(a).strongCount == 0 {
        WeakNamesFirst(a);
        FrontStays(collates, cs, ds, 1);
      }
      if Decide(a).marginGuardDemoted {
        MarginNamesTwo(a);
        FrontStays(collates, cs, ds, 2);
      }
      AttributedStays(a, b);
    }
  }

  lemma RankedLength(collates: (string, string) -> bool, cs: seq<Candidate>)
    ensures |Ranked(collates, cs)| == |cs|
  {
    SortPermutes(Better(collates), StandingOf(), cs);
  }

  /** Two candidates of equal score; their ids are canonically equivalent, which a locale's collation holds for equal. */
  function Composed(): Candidate { Candidate("\U{00E9}", [ProfileOf(LinguisticDna, 0.6, true)], 0.4) }

  function Decomposed(): Candidate { Candidate("e\U{0301}", [ProfileOf(LinguisticDna, 0.6, true)], 0.4) }

  /** Such a tie is won by whichever candidate came first. */
  lemma TieIsWonByOrder(collates: (string, string) -> bool)
    requires Ties(collates, Composed().clientId, Decomposed().clientId)
    ensures Composed().clientId != Decomposed().clientId
    ensures AggregateOf(collates, [], [Composed(), Decomposed()]).attributed == [Composed().clientId]
    ensures AggregateOf(collates, [], [Decomposed(), Composed()]).attributed == [Decomposed().clientId]
  {
    var c, d := Composed(), Decomposed();
    assert |c.clientId| == 1 && |d.clientId| == 2;
    TiedPair(collates, c, d);
    TiedPair(collates, d, c);
  }

  lemma TiedPair(collates: (string, string) -> bool, c: Candidate, d: Candidate)
    requires c.combinedScore == d.combinedScore && Ties(collates, c.clientId, d.clientId)
    requires c.profile == d.profile == [ProfileOf(LinguisticDna, 0.6, true)]
    ensures AggregateOf(collates, [], [c, d]).attributed == [c.clientId]
  {
    var cs := [c, d];
    var p := ProfileOf(LinguisticDna, 0.6, true);
    assert cs[..1] == [c] && [c][..0] == [] && [p][..0] == [] && c.profile[0] == p;
    assert Sort(Better(collates), StandingOf(), [c]) == [c] by {
      SortOfSorted(Better(collates), StandingOf(), [c]);
    }
    assert Ranked(collates, cs) == cs;
    forall name: Channel
      ensures First([p], name) == Last([p], name) == if name == LinguisticDna then Some(p) else None
      ensures PassesAmbiguous([p])
    {
      OneProfile(p, name);
    }
    assert !PassesStrong([p]) && PassesAmbiguous([p]) && !HasHoneytoken(c) && !HasHoneytoken(d);
    hide PassesStrong, PassesAmbiguous, HasHoneytoken, Ranked;
    assert Decisive([], cs) == {};
    FilterNone(cs, Passing());
    assert PassesAmbiguous(cs[0].profile);
  }

  // ---- What a strong verdict means

  /** How many candidates pass the strong rule. */
  lemma PassingAre(cs: seq<Candidate>)
    ensures forall c :: c in Filter(cs, Passing()) <==> c in cs && PassesStrong(c.profile)
  {
    FilterMember(cs, Passing());
  }

  /** The best two combined scores differ by at least 0.2, or there is no second. */
  ghost predicate ClearMargin(ranked: seq<Candidate>) {
    |ranked| >= 2 ==> ranked[0].combinedScore - ranked[1].combinedScore >= 0.2
  }

  /** The one candidate that passes the strong rule. */
  ghost predicate OnlyPasses(cs: seq<Candidate>, c: Candidate) {
    c in cs && PassesStrong(c.profile) && forall d :: d in cs && PassesStrong(d.profile) ==> d == c
  }

  /**
    * Without honeytoken evidence the verdict is strong exactly when a single candidate passes the strong rule and the
    * margin is clear; it then names that candidate and no other.
    */
  lemma StrongMeans(collates: (string, string) -> bool, listed: seq<string>, cs: seq<Candidate>)
    requires TotalPreorder(collates) && DistinctIds(cs) && Decisive(listed, cs) == {}
    ensures var r, ranked := AggregateOf(collates, listed, cs), Ranked(collates, cs);
            && (r.verdict == Strong <==> (exists c :: OnlyPasses(cs, c)) && ClearMargin(ranked))
            && (r.verdict == Strong ==> exists c :: OnlyPasses(cs, c) && r.attributed == [c.clientId])
  {
    hide PassesStrong, PassesAmbiguous, Filter, TotalPreorder, Decisive, Ranked;
    var ranked := Ranked(collates, cs);
    RankedMembers(collates, cs);
    DistinctIdsPermute(cs, ranked);
    PassingAre(ranked);
    var passing := Filter(ranked, Passing());
    FilterKeepsIds(ranked, Passing());
    if |passing| == 1 {
      assert forall d :: d in passing ==> d == passing[0];
      assert passing[0] in passing;
      assert OnlyPasses(cs, passing[0]);
    } else if |passing| >= 2 {
      assert passing[0] in passing && passing[1] in passing && passing[0].clientId != passing[1].clientId;
    } else {
      assert passing == [];
    }
  }

  /** The other steps of the ladder: when each guard demotes, and when nothing at all is found. */
  lemma LadderMeans(collates: (string, string) -> bool, listed: seq<string>, cs: seq<Candidate>)
    requires DistinctIds(cs) && Decisive(listed, cs) == {}
    ensures var r := AggregateOf(collates, listed, cs);
            && (r.multiSuspectDemoted <==>
                exists c, d :: c in cs && d in cs && c != d && PassesStrong(c.profile) && PassesStrong(d.profile))
            && (r.verdict == Insufficient <==> forall c :: c in cs ==> !PassesStrong(c.profile) && !PassesAmbiguous(c.profile))
            && (r.marginGuardDemoted <==> (exists c :: OnlyPasses(cs, c)) && !ClearMargin(Ranked(collates, cs)))
            && (r.marginGuardDemoted ==> |r.attributed| == 2 && r.strongCount == 1)
            && ((r.multiSuspectDemoted || r.marginGuardDemoted) ==> r.verdict == AmbiguousCase)
  {
    hide PassesStrong, PassesAmbiguous, Filter, Decisive, Ranked;
    var ranked := Ranked(collates, cs);
    RankedMembers(collates, cs);
    DistinctIdsPermute(cs, ranked);
    PassingAre(ranked);
    var passing := Filter(ranked, Passing());
    FilterKeepsIds(ranked, Passing());
    if |passing| >= 2 {
      assert passing[0] in passing && passing[1] in passing && passing[0].clientId != passing[1].clientId;
    } else if |passing| == 1 {
      assert passing[0] in passing && forall d :: d in passing ==> d == passing[0];
      assert OnlyPasses(cs, passing[0]);
    } else {
      assert passing == [];
      AnyMember(ranked);
    }
  }

  lemma AnyMember(cs: seq<Candidate>)
    ensures (exists i :: 0 <= i < |cs| && PassesAmbiguous(cs[i].profile)) <==> exists c :: c in cs && PassesAmbiguous(c.profile)
  {
    hide PassesAmbiguous;
    if c :| c in cs && PassesAmbiguous(c.profile) {
      var i :| 0 <= i < |cs| && cs[i] == c;
    }
  }

  lemma {:induction false} FilterKeepsIds(cs: seq<Candidate>, p: Candidate -> bool)
    requires DistinctIds(cs)
    ensures DistinctIds(Filter(cs, p)) && forall c :: c in Filter(cs, p) ==> c in cs
  {
    if cs != [] {
      var n := |cs| - 1;
      FilterKeepsIds(cs[..n], p);
      assert cs == cs[..n] + [cs[n]];
      var front := Filter(cs[..n], p);
      forall i | 0 <= i < |front|
        ensures front[i].clientId != cs[n].clientId
      {
        assert front[i] in cs[..n];
      }
    }
  }

  /**
    * Honeytoken evidence decides alone. It names the candidates it concerns and nobody else; if it concerns none of
    * them, it names the clients listed.
    */
  lemma HoneytokenDecides(collates: (string, string) -> bool, listed: seq<string>, cs: seq<Candidate>)
    requires Decisive(listed, cs) != {}
    ensures var r, concerned := AggregateOf(collates, listed, cs), Concerned(listed, cs);
            && r.verdict == Strong && !r.marginGuardDemoted && !r.multiSuspectDemoted && r.margin.None?
            && (forall id :: id in r.attributed <==> if concerned != {} then id in concerned else id in listed)
            && (forall c :: c in cs && (HasHoneytoken(c) || c.clientId in listed) ==> c.clientId in r.attributed)
  {
    hide HasHoneytoken, Ids, Ranked, Filter;
    var ranked, decisive, concerned := Ranked(collates, cs), Decisive(listed, cs), Concerned(listed, cs);
    var named := Ids(Filter(ranked, Among(decisive)));
    assert forall c :: c in cs && (HasHoneytoken(c) || c.clientId in listed) ==> c.clientId in concerned;
    RankedMembers(collates, cs);
    NamedAre(ranked, decisive);
    assert forall id :: id in named <==> id in concerned;
    hide Decisive, Concerned;
    assert named != [] ==> named[0] in named;
  }

  /** The candidates with honeytoken evidence. */
  function Concerned(listed: seq<string>, cs: seq<Candidate>): set<string> {
    set c | c in cs && c.clientId in Decisive(listed, cs) :: c.clientId
  }

  lemma RankedMembers(collates: (string, string) -> bool, cs: seq<Candidate>)
    ensures multiset(Ranked(collates, cs)) == multiset(cs) && forall c :: c in Ranked(collates, cs) <==> c in cs
  {
    SortPermutes(Better(collates), StandingOf(), cs);
    SameMembers(Ranked(collates, cs), cs);
  }

  lemma NamedAre(cs: seq<Candidate>, ids: set<string>)
    ensures forall id :: id in Ids(Filter(cs, Among(ids))) <==> id in ids && exists c :: c in cs && c.clientId == id
  {
    FilterMember(cs, Among(ids));
    IdsAre(Filter(cs, Among(ids)));
    forall id | id in ids
      ensures (exists c :: c in cs && c.clientId == id) <==> exists c :: c in Filter(cs, Among(ids)) && c.clientId == id
    {
      if c :| c in cs && c.clientId == id {
        assert Among(ids)(c);
      }
    }
  }

  lemma IdsAre(cs: seq<Candidate>)
    ensures forall id :: id in Ids(cs) <==> exists c :: c in cs && c.clientId == id
    ensures Ids(cs) == [] <==> cs == []
  {
    forall id
      ensures id in Ids(cs) <==> exists c :: c in cs && c.clientId == id
    {
      if c :| c in cs && c.clientId == id {
        var k :| 0 <= k < |cs| && cs[k] == c;
        assert Ids(cs)[k] == id;
      }
      if id in Ids(cs) {
        var k :| 0 <= k < |cs| && Ids(cs)[k] == id;
        assert cs[k] in cs;
      }
    }
  }

  /** Without honeytoken evidence a strong verdict names the first in rank if and only if that one passes the strong rule. */
  lemma NamedIsFirst(collates: (string, string) -> bool, listed: seq<string>, cs: seq<Candidate>)
    requires TotalPreorder(collates) && DistinctIds(cs) && Decisive(listed, cs) == {}
    requires AggregateOf(collates, listed, cs).verdict == Strong
    ensures Ranked(collates, cs) != []
    ensures var first := Ranked(collates, cs)[0];
            AggregateOf(collates, listed, cs).attributed == [first.clientId] <==> PassesStrong(first.profile)
  {
    hide PassesStrong, Decisive, AggregateOf, DistinctIds, TotalPreorder, Ranked;
    StrongMeans(collates, listed, cs);
    RankedMembers(collates, cs);
    var c :| OnlyPasses(cs, c) && AggregateOf(collates, listed, cs).attributed == [c.clientId];
    var ranked := Ranked(collates, cs);
    assert c in ranked;
    var first := ranked[0];
    assert first in ranked;
    if first.clientId == c.clientId {
      SameId(cs, first, c);
    }
  }

  /** It need not: a client without any evidence but with the best combined score is passed over. */
  lemma NamedCanBeSecond(collates: (string, string) -> bool)
    ensures var leader := Candidate("a", [], 0.9);
            var marked := Candidate("b", [ProfileOf(ZeroWidthMarks, 0.9, true), ProfileOf(HomoglyphMarks, 0.9, true)], 0.5);
            var r := AggregateOf(collates, [], [leader, marked]);
            Ranked(collates, [leader, marked]) == [leader, marked] && r.verdict == Strong && r.attributed == ["b"]
  {
    var leader := Candidate("a", [], 0.9);
    var marked := Candidate("b", [ProfileOf(ZeroWidthMarks, 0.9, true), ProfileOf(HomoglyphMarks, 0.9, true)], 0.5);
    LastAt(marked.profile, ZeroWidthMarks, 0);
    LastAt(marked.profile, HomoglyphMarks, 1);
    assert PassesStrong(marked.profile) && !PassesStrong(leader.profile);
    NoHoneytoken(marked);
    NoHoneytoken(leader);
    hide PassesStrong, HasHoneytoken, AggregateOf, Ranked;
    SecondNamed(collates, leader, marked);
  }

  lemma SecondNamed(collates: (string, string) -> bool, leader: Candidate, marked: Candidate)
    requires PassesStrong(marked.profile) && !PassesStrong(leader.profile) && !HasHoneytoken(leader) && !HasHoneytoken(marked)
    requires leader.combinedScore - marked.combinedScore >= 0.2
    ensures var cs := [leader, marked];
            var r := AggregateOf(collates, [], cs);
            Ranked(collates, cs) == cs && r.verdict == Strong && r.attributed == [marked.clientId]
  {
    hide PassesStrong, HasHoneytoken, PassesAmbiguous, Sort;
    var cs := [leader, marked];
    SortOfSorted(Better(collates), StandingOf(), cs);
    FilterConcat([leader], [marked], Passing());
    FilterOne(leader, Passing());
    FilterOne(marked, Passing());
    assert cs == [leader] + [marked];
    hide Filter;
    assert Decisive([], cs) == {};
  }

  lemma {:induction false} NoHoneytoken(c: Candidate)
    requires forall i :: 0 <= i < |c.profile| ==> c.profile[i].name != Honeytoken
    ensures !HasHoneytoken(c)
    decreases |c.profile|
  {
    if c.profile != [] {
      NoHoneytoken(c.(profile := c.profile[1..]));
    }
  }

  // ---- Honeytoken evidence and the audit snapshot

  lemma {:induction false} FirstMeans(ps: seq<Profile>, name: Channel)
    ensures First(ps, name).None? ==> forall i :: 0 <= i < |ps| ==> ps[i].name != name
    ensures First(ps, name).Some? ==>
              exists k :: 0 <= k < |ps| && First(ps, name) == Some(ps[k]) && ps[k].name == name
                          && forall i :: 0 <= i < k ==> ps[i].name != name
  {
    if ps != [] && ps[0].name != name {
      FirstMeans(ps[1..], name);
      if First(ps[1..], name).Some? {
        var k :| 0 <= k < |ps[1..]| && First(ps[1..], name) == Some(ps[1..][k]) && ps[1..][k].name == name
                 && forall i :: 0 <= i < k ==> ps[1..][i].name != name;
        assert ps[k + 1] == ps[1..][k];
        forall i | 0 <= i < k + 1
          ensures ps[i].name != name
        {
          assert i > 0 ==> ps[i] == ps[1..][i - 1];
        }
      } else {
        forall i | 0 <= i < |ps|
          ensures ps[i].name != name
        {
          assert i > 0 ==> ps[i] == ps[1..][i - 1];
        }
      }
    }
  }

  /** A candidate has honeytoken evidence if its first honeytoken entry is present with a score of 1 or more. */
  lemma HoneytokenMeans(c: Candidate)
    ensures HasHoneytoken(c) <==>
            exists k :: 0 <= k < |c.profile| && c.profile[k].name == Honeytoken && c.profile[k].present && c.profile[k].score >= 1.0
                        && forall i :: 0 <= i < k ==> c.profile[i].name != Honeytoken
  {
    hide First;
    FirstMeans(c.profile, Honeytoken);
    if k :| 0 <= k < |c.profile| && c.profile[k].name == Honeytoken && c.profile[k].present && c.profile[k].score >= 1.0
            && forall i :: 0 <= i < k ==> c.profile[i].name != Honeytoken {
      FirstAt(c.profile, Honeytoken, k);
    }
  }

  /** On a built profile that is the hit itself, and the snapshot shows every channel's clamped score. */
  lemma BuiltSnapshot(id: string, s: Signals, score: real)
    ensures var c := Candidate(id, BuiltProfile(s), score);
            && (HasHoneytoken(c) <==> s.honeytokenHit)
            && SummaryOf(c).clientId == id && SummaryOf(c).combinedScore == score
            && (SummaryOf(c).passesStrong <==> PassesStrong(BuiltProfile(s)))
            && forall channel :: channel in SummaryOf(c).channelScores
                 && SummaryOf(c).channelScores[channel] == Clamp01(SignalOf(s, channel).score)
  {
    hide BuiltProfile, Last, First, PassesStrong;
    forall channel: Channel
      ensures Last(BuiltProfile(s), channel) == First(BuiltProfile(s), channel)
      ensures Last(BuiltProfile(s), channel).Some? && Last(BuiltProfile(s), channel).value.score == Clamp01(SignalOf(s, channel).score)
      ensures Last(BuiltProfile(s), channel).value.present == SignalOf(s, channel).present
      ensures channel in ScoreMap(BuiltProfile(s))
    {
      BuiltProfileLaws(s, channel);
      EveryChannel(channel);
    }
  }

  lemma EveryChannel(c: Channel)
    ensures c in {Honeytoken, ZeroWidthMarks, HomoglyphMarks, LinguisticDna, SemanticPositional, CascadeHash}
  {}
}
