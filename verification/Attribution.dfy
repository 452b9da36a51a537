/**
  * Attribution of a leak by n-gram fingerprints: registered rows that match the suspect's window hashes are tallied
  * per client and cloak, and the tallies are ranked and judged.
  */
module Attribution {
  import opened Members
  import opened Prelude
  import opened Sorting

  /** A registered fingerprint with a hash of the suspect; without a window size it counts as long. */
  datatype Row = Row(clientId: string, cloakId: string, docId: string, gramHash: string, windowSize: Option<int>)

  datatype Tally = Tally(clientId: string, cloakId: string, docId: string, matches: nat, longWindowMatches: nat)

  const SEPARATOR := '\U{241F}'
  const LONG_WINDOW := 5

  function Key(r: Row): string { r.clientId + [SEPARATOR] + r.cloakId }

  predicate IsLong(r: Row) { r.windowSize.None? || r.windowSize.value >= LONG_WINDOW }

  // ---- The guard against hashes of several clients

  function Owners(rows: seq<Row>, hash: string): set<string> {
    set r | r in rows && r.gramHash == hash :: r.clientId
  }

  function AllHashes(rows: seq<Row>): set<string> { set r | r in rows :: r.gramHash }

  function Ambiguous(rows: seq<Row>): set<string> {
    set h | h in AllHashes(rows) && |Owners(rows, h)| >= 2
  }

  method FindAmbiguous(rows: seq<Row>) returns (ambiguous: set<string>)
    ensures ambiguous == Ambiguous(rows)
  {
    var clientsByHash: map<string, set<string>> := map[];
    for i := 0 to |rows|
      invariant clientsByHash.Keys == AllHashes(rows[..i])
      invariant forall h :: h in clientsByHash ==> clientsByHash[h] == Owners(rows[..i], h)
    {
      var m := rows[i];
      assert rows[..i + 1] == rows[..i] + [m];
      var owners := if m.gramHash in clientsByHash then clientsByHash[m.gramHash] else {};
      OwnersNext(rows[..i], m);
      clientsByHash := clientsByHash[m.gramHash := owners + {m.clientId}];
    }
    assert rows[..|rows|] == rows;
    ambiguous := set h | h in clientsByHash && |clientsByHash[h]| >= 2;
  }

  lemma OwnersNext(rows: seq<Row>, m: Row)
    ensures AllHashes(rows + [m]) == AllHashes(rows) + {m.gramHash}
    ensures forall h :: Owners(rows + [m], h) == Owners(rows, h) + (if h == m.gramHash then {m.clientId} else {})
    ensures m.gramHash !in AllHashes(rows) ==> Owners(rows, m.gramHash) == {}
  {
    assert forall r :: r in rows + [m] <==> r in rows || r == m;
    forall h
      ensures Owners(rows + [m], h) == Owners(rows, h) + (if h == m.gramHash then {m.clientId} else {})
    {}
  }

  // ---- What the tallies are

  /** The unambiguous hashes that rows under a key hold. */
  function HashesOf(rows: seq<Row>, ambiguous: set<string>, key: string): set<string> {
    set r | r in rows && Key(r) == key && r.gramHash !in ambiguous :: r.gramHash
  }

  /** The first row that satisfies `p`. */
  function First(rows: seq<Row>, p: Row -> bool): Option<Row> {
    if rows == [] then None
    else
      var f := First(rows[..|rows| - 1], p);
      if f.Some? then f else if p(rows[|rows| - 1]) then Some(rows[|rows| - 1]) else None
  }

  function Counts(ambiguous: set<string>, key: string): Row -> bool {
    (r: Row) => Key(r) == key && r.gramHash !in ambiguous
  }

  function Holds(key: string, hash: string): Row -> bool { (r: Row) => Key(r) == key && r.gramHash == hash }

  /** Those whose first row has a long window. */
  function LongHashesOf(rows: seq<Row>, ambiguous: set<string>, key: string): set<string> {
    set h | h in HashesOf(rows, ambiguous, key) && First(rows, Holds(key, h)).Some? && IsLong(First(rows, Holds(key, h)).value)
  }

  function TallyOf(rows: seq<Row>, ambiguous: set<string>, key: string): Option<Tally> {
    match First(rows, Counts(ambiguous, key))
    case None => None
    case Some(r) =>
      Some(Tally(r.clientId, r.cloakId, r.docId, |HashesOf(rows, ambiguous, key)|, |LongHashesOf(rows, ambiguous, key)|))
  }

  /** The keys of unambiguous rows, in order of first appearance. */
  function KeysOf(rows: seq<Row>, ambiguous: set<string>): seq<string> {
    if rows == [] then []
    else
      var front, last := KeysOf(rows[..|rows| - 1], ambiguous), rows[|rows| - 1];
      if last.gramHash in ambiguous || Key(last) in front then front else front + [Key(last)]
  }

  lemma {:induction false} FirstIs(rows: seq<Row>, p: Row -> bool)
    ensures First(rows, p).Some? <==> exists r :: r in rows && p(r)
    ensures First(rows, p).Some? ==> First(rows, p).value in rows && p(First(rows, p).value)
  {
    if rows != [] {
      var n := |rows| - 1;
      FirstIs(rows[..n], p);
      assert rows == rows[..n] + [rows[n]];
    }
  }

  lemma FirstNext(rows: seq<Row>, m: Row, p: Row -> bool)
    ensures First(rows + [m], p) == if First(rows, p).Some? then First(rows, p) else if p(m) then Some(m) else None
  {
    assert (rows + [m])[..|rows|] == rows;
  }

  lemma {:induction false} KeysAre(rows: seq<Row>, ambiguous: set<string>)
    ensures forall k :: k in KeysOf(rows, ambiguous) <==> HashesOf(rows, ambiguous, k) != {}
    ensures forall i, j :: 0 <= i < j < |KeysOf(rows, ambiguous)| ==> KeysOf(rows, ambiguous)[i] != KeysOf(rows, ambiguous)[j]
  {
    if rows != [] {
      var n := |rows| - 1;
      KeysAre(rows[..n], ambiguous);
      assert rows == rows[..n] + [rows[n]];
      forall k
        ensures HashesOf(rows, ambiguous, k) != {} <==>
                HashesOf(rows[..n], ambiguous, k) != {} || (Key(rows[n]) == k && rows[n].gramHash !in ambiguous)
      {
        HashesNext(rows[..n], rows[n], ambiguous, k);
      }
    }
  }

  lemma HashesNext(rows: seq<Row>, m: Row, ambiguous: set<string>, key: string)
    ensures HashesOf(rows + [m], ambiguous, key) ==
            HashesOf(rows, ambiguous, key) + (if Key(m) == key && m.gramHash !in ambiguous then {m.gramHash} else {})
  {
    hide Key;
    assert forall r :: r in rows + [m] <==> r in rows || r == m;
  }

  /** A row changes the tallies only if its hash is unambiguous and new under its key. */
  predicate IsNew(rows: seq<Row>, ambiguous: set<string>, m: Row) {
    m.gramHash !in ambiguous && m.gramHash !in HashesOf(rows, ambiguous, Key(m))
  }

  lemma LongNext(rows: seq<Row>, m: Row, ambiguous: set<string>, key: string)
    ensures LongHashesOf(rows + [m], ambiguous, key) ==
            LongHashesOf(rows, ambiguous, key)
            + (if IsNew(rows, ambiguous, m) && Key(m) == key && IsLong(m) then {m.gramHash} else {})
  {
    hide Key, IsLong, First;
    HashesNext(rows, m, ambiguous, key);
    forall h
      ensures h in LongHashesOf(rows + [m], ambiguous, key) <==>
              h in LongHashesOf(rows, ambiguous, key)
              || (h == m.gramHash && IsNew(rows, ambiguous, m) && Key(m) == key && IsLong(m))
    {
      FirstNext(rows, m, Holds(key, h));
      FirstIs(rows, Holds(key, h));
      if h in HashesOf(rows, ambiguous, key) {
        var r :| r in rows && Key(r) == key && r.gramHash !in ambiguous && r.gramHash == h;
        assert Holds(key, h)(r);
      } else if h !in ambiguous {
        assert forall r :: r in rows && Holds(key, h)(r) ==> r.gramHash in HashesOf(rows, ambiguous, key);
      }
    }
  }

  lemma FirstCounted(rows: seq<Row>, ambiguous: set<string>, key: string)
    ensures First(rows, Counts(ambiguous, key)).None? <==> HashesOf(rows, ambiguous, key) == {}
    ensures LongHashesOf(rows, ambiguous, key) <= HashesOf(rows, ambiguous, key)
  {
    hide Key, IsLong, First;
    FirstIs(rows, Counts(ambiguous, key));
    if First(rows, Counts(ambiguous, key)).Some? {
      var r := First(rows, Counts(ambiguous, key)).value;
      assert r.gramHash in HashesOf(rows, ambiguous, key);
    } else {
      assert forall r :: r in rows ==> !Counts(ambiguous, key)(r);
    }
  }

  lemma Grows(s: set<string>, h: string)
    ensures |s + {h}| == if h in s then |s| else |s| + 1
  {
    assert h in s ==> s + {h} == s;
  }

  lemma TallyStays(rows: seq<Row>, m: Row, ambiguous: set<string>, key: string)
    requires !IsNew(rows, ambiguous, m) || Key(m) != key
    ensures TallyOf(rows + [m], ambiguous, key) == TallyOf(rows, ambiguous, key)
  {
    hide Key, IsLong, First, HashesOf, LongHashesOf;
    FirstNext(rows, m, Counts(ambiguous, key));
    FirstCounted(rows, ambiguous, key);
    HashesNext(rows, m, ambiguous, key);
    LongNext(rows, m, ambiguous, key);
    var hs, ls := HashesOf(rows, ambiguous, key), LongHashesOf(rows, ambiguous, key);
    assert ls + {} == ls;
    if Counts(ambiguous, key)(m) {
      assert m.gramHash in hs;
      assert hs + {m.gramHash} == hs;
    } else {
      assert hs + {} == hs;
    }
  }

  lemma TallyGrows(rows: seq<Row>, m: Row, ambiguous: set<string>)
    requires IsNew(rows, ambiguous, m)
    ensures TallyOf(rows + [m], ambiguous, Key(m)) ==
            Some(Counted(TallyOf(rows, ambiguous, Key(m)).UnwrapOr(Tally(m.clientId, m.cloakId, m.docId, 0, 0)), m))
  {
    hide Key, First, HashesOf, LongHashesOf;
    var key := Key(m);
    FirstNext(rows, m, Counts(ambiguous, key));
    FirstCounted(rows, ambiguous, key);
    HashesNext(rows, m, ambiguous, key);
    LongNext(rows, m, ambiguous, key);
    var hs, ls := HashesOf(rows, ambiguous, key), LongHashesOf(rows, ambiguous, key);
    Grows(hs, m.gramHash);
    Grows(ls, m.gramHash);
    assert ls + {} == ls;
  }

  function Counted(t: Tally, m: Row): Tally {
    t.(matches := t.matches + 1, longWindowMatches := t.longWindowMatches + (if m.windowSize.UnwrapOr(5) >= 5 then 1 else 0))
  }

  lemma KeysNext(rows: seq<Row>, m: Row, ambiguous: set<string>)
    ensures KeysOf(rows + [m], ambiguous) ==
            if !IsNew(rows, ambiguous, m) || Key(m) in KeysOf(rows, ambiguous) then KeysOf(rows, ambiguous)
            else KeysOf(rows, ambiguous) + [Key(m)]
  {
    hide Key;
    assert (rows + [m])[..|rows|] == rows;
    KeysAre(rows, ambiguous);
  }

  /** The running maps of the tally loop after some rows. */
  ghost predicate TalliesAre(rows: seq<Row>, ambiguous: set<string>, order: seq<string>, tally: map<string, Tally>,
                             seen: map<string, set<string>>) {
    && order == KeysOf(rows, ambiguous)
    && (forall k :: k in tally <==> k in order)
    && (forall k :: TallyOf(rows, ambiguous, k) == if k in tally then Some(tally[k]) else None)
    && (forall k :: HashesOf(rows, ambiguous, k) == if k in seen then seen[k] else {})
  }

  lemma NoTallies(ambiguous: set<string>)
    ensures TalliesAre([], ambiguous, [], map[], map[])
  {}

  method TallyRow(ghost rows: seq<Row>, ambiguous: set<string>, order: seq<string>, tally: map<string, Tally>,
                  seen: map<string, set<string>>, m: Row)
    returns (order': seq<string>, tally': map<string, Tally>, seen': map<string, set<string>>)
    requires TalliesAre(rows, ambiguous, order, tally, seen)
    ensures TalliesAre(rows + [m], ambiguous, order', tally', seen')
  {
    hide Key, TallyOf, HashesOf, KeysOf;
    order', tally', seen' := order, tally, seen;
    KeysNext(rows, m, ambiguous);
    forall k
      ensures !IsNew(rows, ambiguous, m) || Key(m) != k ==> TallyOf(rows + [m], ambiguous, k) == TallyOf(rows, ambiguous, k)
      ensures HashesOf(rows + [m], ambiguous, k) ==
              HashesOf(rows, ambiguous, k) + (if Key(m) == k && m.gramHash !in ambiguous then {m.gramHash} else {})
    {
      if !IsNew(rows, ambiguous, m) || Key(m) != k {
        TallyStays(rows, m, ambiguous, k);
      }
      HashesNext(rows, m, ambiguous, k);
    }
    if m.gramHash in ambiguous {
      return;
    }
    var key := Key(m);
    var hashes := if key in seen then seen[key] else {};
    if m.gramHash in hashes {
      assert hashes + {m.gramHash} == hashes;
      return;
    }
    TallyGrows(rows, m, ambiguous);
    seen' := seen[key := hashes + {m.gramHash}];
    var cur := if key in tally then tally[key] else Tally(m.clientId, m.cloakId, m.docId, 0, 0);
    if key !in tally {
      order' := order + [key];
    }
    tally' := tally[key := Counted(cur, m)];
  }

  function Standing(rows: seq<Row>, ambiguous: set<string>): (ts: seq<Tally>)
    ensures |ts| == |KeysOf(rows, ambiguous)|
  {
    var keys := KeysOf(rows, ambiguous);
    KeysHaveTallies(rows, ambiguous);
    seq(|keys|, i requires 0 <= i < |keys| => TallyOf(rows, ambiguous, keys[i]).value)
  }

  lemma KeysHaveTallies(rows: seq<Row>, ambiguous: set<string>)
    ensures forall i :: 0 <= i < |KeysOf(rows, ambiguous)| ==> TallyOf(rows, ambiguous, KeysOf(rows, ambiguous)[i]).Some?
  {
    hide KeysOf, First, HashesOf;
    KeysAre(rows, ambiguous);
    forall i | 0 <= i < |KeysOf(rows, ambiguous)|
      ensures TallyOf(rows, ambiguous, KeysOf(rows, ambiguous)[i]).Some?
    {
      var k := KeysOf(rows, ambiguous)[i];
      assert k in KeysOf(rows, ambiguous);
      FirstCounted(rows, ambiguous, k);
    }
  }

  method TallyRows(rows: seq<Row>, ambiguous: set<string>) returns (tallies: seq<Tally>)
    ensures tallies == Standing(rows, ambiguous)
  {
    hide TalliesAre, TallyOf, KeysOf;
    var order, tally, seen: map<string, set<string>> := [], map[], map[];
    NoTallies(ambiguous);
    assert rows[..0] == [];
    for i := 0 to |rows|
      invariant TalliesAre(rows[..i], ambiguous, order, tally, seen)
    {
      assert rows[..i + 1] == rows[..i] + [rows[i]];
      order, tally, seen := TallyRow(rows[..i], ambiguous, order, tally, seen, rows[i]);
    }
    assert rows[..|rows|] == rows;
    TalliesKeys(rows, ambiguous, order, tally, seen);
    assert forall i :: 0 <= i < |order| ==> order[i] in order;
    tallies := seq(|order|, i requires 0 <= i < |order| => tally[order[i]]);
  }

  lemma TalliesKeys(rows: seq<Row>, ambiguous: set<string>, order: seq<string>, tally: map<string, Tally>, seen: map<string, set<string>>)
    requires TalliesAre(rows, ambiguous, order, tally, seen)
    ensures order == KeysOf(rows, ambiguous) && (forall k :: k in tally <==> k in order)
    ensures forall k :: k in tally ==> TallyOf(rows, ambiguous, k) == Some(tally[k])
  {}

  // ---- Ranking and verdict

  function Label(t: Tally): string { t.clientId + "|" + t.cloakId }

  /** More matches first; equal counts by the collation of their labels. */
  function RankBy(collates: (string, string) -> bool): ((nat, string), (nat, string)) -> bool {
    (a: (nat, string), b: (nat, string)) => a.0 > b.0 || (a.0 == b.0 && collates(a.1, b.1))
  }

  function RankOf(): Tally -> (nat, string) { (t: Tally) => (t.matches, Label(t)) }

  function Ranked(collates: (string, string) -> bool, tallies: seq<Tally>): seq<Tally> {
    Sort(RankBy(collates), RankOf(), tallies)
  }

  function TotalMatches(ts: seq<Tally>): nat {
    if ts == [] then 0 else TotalMatches(ts[..|ts| - 1]) + ts[|ts| - 1].matches
  }

  datatype Judgement = Strong | AmbiguousMatch | Insufficient

  /** Four fifths, rounded up. */
  function FourFifths(n: nat): nat { (4 * n + 4) / 5 }

  function Judge(ranked: seq<Tally>, threshold: int): Judgement {
    if ranked == [] || ranked[0].matches < threshold then Insufficient
    else if |ranked| >= 2 && ranked[1].matches >= ranked[0].matches then AmbiguousMatch
    else if |ranked| >= 2 && ranked[1].matches >= FourFifths(ranked[0].matches) then
      if ranked[1].matches >= threshold then AmbiguousMatch else Strong
    else if ranked[0].longWindowMatches < 1 then AmbiguousMatch
    else Strong
  }

  datatype Verdict = Verdict(verdict: Judgement, totalSuspectGrams: nat, totalMatchedGrams: nat, ambiguousDropped: nat,
                             candidates: seq<Tally>)

  function Attribute(collates: (string, string) -> bool, suspectHashes: nat, rows: seq<Row>, threshold: Option<int>): Verdict {
    var ranked := Ranked(collates, Standing(rows, Ambiguous(rows)));
    Verdict(Judge(ranked, threshold.UnwrapOr(5)), suspectHashes, TotalMatches(ranked), |Ambiguous(rows)|, ranked)
  }

  method AttributeFromMatches(collates: (string, string) -> bool, suspectHashes: nat, rows: seq<Row>, threshold: Option<int>)
    returns (r: Verdict)
    ensures r == Attribute(collates, suspectHashes, rows, threshold)
  {
    hide Standing, Ambiguous, Ranked, Judge;
    var ambiguous := FindAmbiguous(rows);
    var tallies := TallyRows(rows, ambiguous);
    var ranked := Ranked(collates, tallies);
    var total := 0;
    for i := 0 to |ranked|
      invariant total == TotalMatches(ranked[..i])
    {
      assert ranked[..i + 1][..i] == ranked[..i];
      total := total + ranked[i].matches;
    }
    assert ranked[..|ranked|] == ranked;
    r := Verdict(Judge(ranked, threshold.UnwrapOr(5)), suspectHashes, total, |ambiguous|, ranked);
  }

  // ---- Counting

  /** The distinct triples whose hash belongs to one client only. */
  function Triples(rows: seq<Row>): set<(string, string, string)> {
    set r | r in rows && r.gramHash !in Ambiguous(rows) :: (r.clientId, r.cloakId, r.gramHash)
  }

  function Pairs(rows: seq<Row>, ambiguous: set<string>): set<(string, string)> {
    set r | r in rows && r.gramHash !in ambiguous :: (Key(r), r.gramHash)
  }

  lemma SplitOnce(x: string, y: string, a: string, b: string, c: char)
    requires c !in x && c !in a && x + [c] + y == a + [c] + b
    ensures x == a && y == b
  {
    var s := x + [c] + y;
    assert s[|x|] == c && s[|a|] == c;
    assert forall i :: 0 <= i < |x| ==> s[i] == x[i];
    assert forall i :: 0 <= i < |a| ==> s[i] == a[i];
    assert |x| == |a|;
    assert s[..|x|] == x && s[..|a|] == a && s[|x| + 1..] == y && s[|a| + 1..] == b;
  }

  lemma {:induction false} TotalOfInsert(leq: ((nat, string), (nat, string)) -> bool, x: Tally, ts: seq<Tally>)
    ensures TotalMatches(Insert(leq, RankOf(), x, ts)) == TotalMatches(ts) + x.matches
  {
    var r := Insert(leq, RankOf(), x, ts);
    if ts == [] || leq(RankOf()(ts[|ts| - 1]), RankOf()(x)) {
      assert (ts + [x])[..|ts|] == ts;
    } else {
      var n := |ts| - 1;
      TotalOfInsert(leq, x, ts[..n]);
      var front := Insert(leq, RankOf(), x, ts[..n]);
      assert (front + [ts[n]])[..|front|] == front;
    }
  }

  lemma {:induction false} TotalOfSort(leq: ((nat, string), (nat, string)) -> bool, ts: seq<Tally>)
    ensures TotalMatches(Sort(leq, RankOf(), ts)) == TotalMatches(ts)
  {
    if ts != [] {
      var n := |ts| - 1;
      TotalOfSort(leq, ts[..n]);
      TotalOfInsert(leq, ts[n], Sort(leq, RankOf(), ts[..n]));
    }
  }

  /** The pairs of the first `n` keys. */
  ghost function PairsUpTo(rows: seq<Row>, ambiguous: set<string>, n: nat): set<(string, string)>
    requires n <= |KeysOf(rows, ambiguous)|
  {
    set p | p in Pairs(rows, ambiguous) && p.0 in KeysOf(rows, ambiguous)[..n]
  }

  ghost function OwnPairs(rows: seq<Row>, ambiguous: set<string>, key: string): set<(string, string)> {
    Image(HashesOf(rows, ambiguous, key), WithKey(key))
  }

  function WithKey(key: string): string -> (string, string) { (h: string) => (key, h) }

  lemma PairsStep(rows: seq<Row>, ambiguous: set<string>, n: nat)
    requires 0 < n <= |KeysOf(rows, ambiguous)|
    ensures var k := KeysOf(rows, ambiguous)[n - 1];
            |PairsUpTo(rows, ambiguous, n)| == |PairsUpTo(rows, ambiguous, n - 1)| + |HashesOf(rows, ambiguous, k)|
  {
    hide Key, KeysOf, HashesOf, Pairs;
    KeysAre(rows, ambiguous);
    var keys := KeysOf(rows, ambiguous);
    var k := keys[n - 1];
    var before, own := PairsUpTo(rows, ambiguous, n - 1), OwnPairs(rows, ambiguous, k);
    SameSize(HashesOf(rows, ambiguous, k), WithKey(k));
    PairsOfKey(rows, ambiguous, k);
    assert keys[..n] == keys[..n - 1] + [k];
    assert k !in keys[..n - 1];
    assert PairsUpTo(rows, ambiguous, n) == before + own;
    assert before !! own;
  }

  lemma {:induction false} TotalOfKeys(rows: seq<Row>, ambiguous: set<string>, n: nat)
    requires n <= |KeysOf(rows, ambiguous)|
    ensures TotalMatches(Standing(rows, ambiguous)[..n]) == |PairsUpTo(rows, ambiguous, n)|
  {
    hide Key, First, KeysOf, HashesOf, PairsUpTo;
    var ts := Standing(rows, ambiguous);
    if n == 0 {
      NoPairs(rows, ambiguous);
    } else {
      TotalOfKeys(rows, ambiguous, n - 1);
      assert ts[..n][..n - 1] == ts[..n - 1] && ts[..n][n - 1] == ts[n - 1];
      KeysHaveTallies(rows, ambiguous);
      PairsStep(rows, ambiguous, n);
    }
  }

  lemma NoPairs(rows: seq<Row>, ambiguous: set<string>)
    ensures PairsUpTo(rows, ambiguous, 0) == {}
  {}

  lemma PairsOfKey(rows: seq<Row>, ambiguous: set<string>, k: string)
    ensures forall p :: p in Pairs(rows, ambiguous) && p.0 == k <==>
                        p.0 == k && p.1 in HashesOf(rows, ambiguous, k)
  {
    hide Key;
  }

  function Image<A, B>(s: set<A>, f: A -> B): set<B> { set x | x in s :: f(x) }

  lemma {:induction false} SameSize<A(!new), B>(s: set<A>, f: A -> B)
    requires forall x, y :: x in s && y in s && f(x) == f(y) ==> x == y
    ensures |Image(s, f)| == |s|
    decreases |s|
  {
    if s == {} {
      assert Image(s, f) == {};
    } else {
      var a :| a in s;
      var rest := s - {a};
      SameSize(rest, f);
      assert Image(s, f) == Image(rest, f) + {f(a)};
    }
  }

  /** An unambiguous hash has one client, so that a key and such a hash leave no doubt about the cloak either. */
  lemma OneOwner(rows: seq<Row>, r: Row, s: Row)
    requires r in rows && s in rows && r.gramHash == s.gramHash && r.gramHash !in Ambiguous(rows)
    ensures r.clientId == s.clientId && (Key(r) == Key(s) ==> r.cloakId == s.cloakId)
  {
    var owners := Owners(rows, r.gramHash);
    assert r.gramHash in AllHashes(rows) && {r.clientId, s.clientId} <= owners;
    assert r.clientId == s.clientId by {
      if r.clientId != s.clientId {
        assert |{r.clientId, s.clientId}| == 2;
        AtMost({r.clientId, s.clientId}, owners);
      }
    }
    var n := |r.clientId| + 1;
    assert Key(r)[n..] == r.cloakId && Key(s)[n..] == s.cloakId;
  }

  lemma AtMost(part: set<string>, whole: set<string>)
    requires part <= whole
    ensures |part| <= |whole|
  {
    assert whole == part + (whole - part);
  }

  function Paired(): ((string, string, string)) -> (string, string) {
    (t: (string, string, string)) => (t.0 + [SEPARATOR] + t.1, t.2)
  }

  lemma TriplesArePairs(rows: seq<Row>)
    ensures |Triples(rows)| == |Pairs(rows, Ambiguous(rows))|
  {
    hide Ambiguous;
    var triples := Triples(rows);
    forall s, t | s in triples && t in triples && Paired()(s) == Paired()(t)
      ensures s == t
    {
      var q :| q in rows && q.gramHash !in Ambiguous(rows) && s == (q.clientId, q.cloakId, q.gramHash);
      var r :| r in rows && r.gramHash !in Ambiguous(rows) && t == (r.clientId, r.cloakId, r.gramHash);
      OneOwner(rows, q, r);
    }
    SameSize(triples, Paired());
    ImageIsPairs(rows);
  }

  lemma ImageIsPairs(rows: seq<Row>)
    ensures Image(Triples(rows), Paired()) == Pairs(rows, Ambiguous(rows))
  {
    hide Ambiguous;
    var triples := Triples(rows);
    var image := Image(triples, Paired());
    forall p
      ensures p in image <==> p in Pairs(rows, Ambiguous(rows))
    {
      if p in Pairs(rows, Ambiguous(rows)) {
        var r :| r in rows && r.gramHash !in Ambiguous(rows) && p == (Key(r), r.gramHash);
        assert (r.clientId, r.cloakId, r.gramHash) in triples;
        assert Paired()((r.clientId, r.cloakId, r.gramHash)) == p;
      }
      if p in image {
        var t :| t in triples && Paired()(t) == p;
        var r :| r in rows && r.gramHash !in Ambiguous(rows) && t == (r.clientId, r.cloakId, r.gramHash);
        assert Key(r) == p.0;
      }
    }
  }

  /** The reported total counts every (client, cloak, hash) triple with an unambiguous hash once. */
  lemma TotalCountsTriples(collates: (string, string) -> bool, suspectHashes: nat, rows: seq<Row>, threshold: Option<int>)
    ensures Attribute(collates, suspectHashes, rows, threshold).totalMatchedGrams == |Triples(rows)|
  {
    hide Ambiguous, Standing, KeysOf, Key, Judge;
    var ambiguous := Ambiguous(rows);
    var ts := Standing(rows, ambiguous);
    TotalOfSort(RankBy(collates), ts);
    TotalOfKeys(rows, ambiguous, |ts|);
    assert ts[..|ts|] == ts;
    KeysAre(rows, ambiguous);
    assert KeysOf(rows, ambiguous)[..|ts|] == KeysOf(rows, ambiguous);
    AllPairsHaveKeys(rows, ambiguous);
    TriplesArePairs(rows);
  }

  lemma AllPairsHaveKeys(rows: seq<Row>, ambiguous: set<string>)
    ensures PairsUpTo(rows, ambiguous, |KeysOf(rows, ambiguous)|) == Pairs(rows, ambiguous)
  {
    hide Key, KeysOf;
    KeysAre(rows, ambiguous);
    var keys := KeysOf(rows, ambiguous);
    assert keys[..|keys|] == keys;
    forall p | p in Pairs(rows, ambiguous)
      ensures p.0 in keys
    {
      var r :| r in rows && r.gramHash !in ambiguous && p == (Key(r), r.gramHash);
      assert r.gramHash in HashesOf(rows, ambiguous, p.0);
    }
  }

  /** Rows of two clients, one hash each. */
  function ConfusedRows(): seq<Row> {
    [Row("a", "b" + [SEPARATOR] + "c", "d", "h", None), Row("a" + [SEPARATOR] + "b", "c", "d", "g", None)]
  }

  /** Ids that hold the separator can share a key, and then the row of one client raises the count of the other. */
  lemma SeparatorConfuses()
    ensures var (first, second) := (ConfusedRows()[0], ConfusedRows()[1]);
            var alone, both := [first], [first] + [second];
            && first.clientId != second.clientId
            && HashesOf(alone, Ambiguous(alone), Key(first)) == {"h"}
            && HashesOf(both, Ambiguous(both), Key(first)) == {"g", "h"}
  {
    var (first, second) := (ConfusedRows()[0], ConfusedRows()[1]);
    assert |first.clientId| == 1 && |second.clientId| == 3 && |first.gramHash| == 1;
    assert first.gramHash[0] != second.gramHash[0];
    assert Key(first) == "a" + [SEPARATOR] + "b" + [SEPARATOR] + "c" == Key(second);
    hide Key, HashesOf, Ambiguous;
    SingleRow(first);
    RowsUnderOneKey(first, second);
  }

  lemma RowsUnderOneKey(r: Row, s: Row)
    requires Key(r) == Key(s) && r.gramHash != s.gramHash
    ensures var both := [r] + [s]; HashesOf(both, Ambiguous(both), Key(r)) == {r.gramHash, s.gramHash}
  {
    hide Key;
    OneHashEach(r, s);
    HashesNext([r], s, {}, Key(r));
    SingleRow(r);
  }

  lemma OneHashEach(r: Row, s: Row)
    requires r.gramHash != s.gramHash
    ensures Ambiguous([r] + [s]) == {}
  {
    var both := [r] + [s];
    OwnersNext([r], s);
    forall h
      ensures |Owners(both, h)| <= 1
    {
      assert Owners([r], h) == if h == r.gramHash then {r.clientId} else {};
      assert Owners(both, h) == if h == r.gramHash then {r.clientId} else if h == s.gramHash then {s.clientId} else {};
    }
  }

  lemma SingleRow(r: Row)
    ensures Ambiguous([r]) == {} && HashesOf([r], {}, Key(r)) == {r.gramHash}
  {
    hide Key;
    forall h
      ensures |Owners([r], h)| <= 1
    {
      assert Owners([r], h) == if h == r.gramHash then {r.clientId} else {};
    }
    assert r in [r];
  }

  // ---- The order of rows

  /** Neither the guard nor any match count depends on the order of the rows. */
  lemma OrderDoesNotMatter(rows: seq<Row>, rows': seq<Row>, key: string)
    requires SameRows(rows, rows')
    ensures Ambiguous(rows) == Ambiguous(rows')
    ensures HashesOf(rows, Ambiguous(rows), key) == HashesOf(rows', Ambiguous(rows'), key)
  {
    hide Key;
    forall h
      ensures Owners(rows, h) == Owners(rows', h)
    {}
    assert AllHashes(rows) == AllHashes(rows');
  }

  /** The hashes of the triples of a client and cloak. */
  function OwnHashes(rows: seq<Row>, client: string, cloak: string): set<string> {
    set t | t in Triples(rows) && t.0 == client && t.1 == cloak :: t.2
  }

  /** The matches of a candidate include its triples, and are exactly these unless rows of another client have its key. */
  lemma HashesAreTriples(rows: seq<Row>, client: string, cloak: string)
    ensures var key := client + [SEPARATOR] + cloak;
            && OwnHashes(rows, client, cloak) <= HashesOf(rows, Ambiguous(rows), key)
            && (HashesOf(rows, Ambiguous(rows), key) == OwnHashes(rows, client, cloak) <==>
                forall r :: r in rows && r.gramHash !in Ambiguous(rows) && Key(r) == key ==> r.clientId == client)
  {
    hide Ambiguous;
    var key := client + [SEPARATOR] + cloak;
    var hashes, own := HashesOf(rows, Ambiguous(rows), key), OwnHashes(rows, client, cloak);
    forall h
      ensures h in own <==> exists r :: r in rows && r.gramHash !in Ambiguous(rows) && r.gramHash == h && r.clientId == client && r.cloakId == cloak
    {
      if h in own {
        var t :| t in Triples(rows) && t.0 == client && t.1 == cloak && t.2 == h;
        var r :| r in rows && r.gramHash !in Ambiguous(rows) && t == (r.clientId, r.cloakId, r.gramHash);
      }
      if r :| r in rows && r.gramHash !in Ambiguous(rows) && r.gramHash == h && r.clientId == client && r.cloakId == cloak {
        assert (client, cloak, h) in Triples(rows);
      }
    }
    hide OwnHashes;
    forall r | r in rows && r.gramHash !in Ambiguous(rows) && Key(r) == key
      ensures r.gramHash in hashes && (r.gramHash in own <==> r.clientId == client)
    {
      if r.gramHash in own {
        var s :| s in rows && s.gramHash == r.gramHash && s.clientId == client;
        OneOwner(rows, r, s);
      }
      if r.clientId == client {
        assert r.cloakId == Key(r)[|client| + 1..] == key[|client| + 1..] == cloak;
      }
    }
    forall h | h in own
      ensures h in hashes
    {
      var r :| r in rows && r.gramHash !in Ambiguous(rows) && r.gramHash == h && r.clientId == client && r.cloakId == cloak;
      assert Key(r) == key;
    }
  }

  /** A further row never adds to the matches of a key, whatever rows there are, if and only if it has another key. */
  lemma OtherClientNeverRaises(other: Row, key: string)
    ensures (forall rows :: HashesOf(rows + [other], Ambiguous(rows + [other]), key) <= HashesOf(rows, Ambiguous(rows), key))
            <==> Key(other) != key
  {
    if Key(other) != key {
      forall rows
        ensures HashesOf(rows + [other], Ambiguous(rows + [other]), key) <= HashesOf(rows, Ambiguous(rows), key)
      {
        GuardGrows(rows, other);
        HashesNext(rows, other, Ambiguous(rows + [other]), key);
      }
    } else {
      var none: seq<Row> := [];
      SingleRow(other);
      assert none + [other] == [other];
      assert HashesOf(none, Ambiguous(none), key) == {};
    }
  }

  /** A further row can only make hashes ambiguous. */
  lemma GuardGrows(rows: seq<Row>, other: Row)
    ensures Ambiguous(rows) <= Ambiguous(rows + [other])
  {
    OwnersNext(rows, other);
    forall h | h in Ambiguous(rows)
      ensures h in Ambiguous(rows + [other])
    {
      AtMost(Owners(rows, h), Owners(rows + [other], h));
    }
  }

  /** A row of another client has another key, unless one of the two clients holds the separator in its id. */
  lemma OtherClientOtherKey(r: Row, s: Row)
    requires SEPARATOR !in r.clientId && SEPARATOR !in s.clientId && r.clientId != s.clientId
    ensures Key(r) != Key(s)
  {
    if Key(r) == Key(s) {
      SplitOnce(r.clientId, r.cloakId, s.clientId, s.cloakId, SEPARATOR);
      assert false;
    }
  }

  // ---- What ranking and verdict owe to the order of rows

  function MatchesOf(): Tally -> nat { (t: Tally) => t.matches }

  function CountOf(rows: seq<Row>, ambiguous: set<string>): string -> nat {
    (key: string) => |HashesOf(rows, ambiguous, key)|
  }

  function KeyOf(t: Tally): string { t.clientId + [SEPARATOR] + t.cloakId }

  lemma TallyMeans(rows: seq<Row>, ambiguous: set<string>, key: string)
    requires TallyOf(rows, ambiguous, key).Some?
    ensures var t := TallyOf(rows, ambiguous, key).value;
            && KeyOf(t) == key && t.matches == |HashesOf(rows, ambiguous, key)|
            && t.longWindowMatches == |LongHashesOf(rows, ambiguous, key)|
            && exists r :: First(rows, Counts(ambiguous, key)) == Some(r) && r in rows && r.gramHash !in ambiguous
                           && Key(r) == key && r.clientId == t.clientId && r.cloakId == t.cloakId
  {
    hide HashesOf, LongHashesOf;
    FirstIs(rows, Counts(ambiguous, key));
  }

  /** The tallies stand in the order of the keys and hold their counts. */
  lemma StandingMeans(rows: seq<Row>, ambiguous: set<string>)
    ensures var keys, ts := KeysOf(rows, ambiguous), Standing(rows, ambiguous);
            && Distinct(keys) && |keys| == |ts|
            && (forall k :: k in keys <==> HashesOf(rows, ambiguous, k) != {})
            && (forall i :: 0 <= i < |ts| ==>
                  Some(ts[i]) == TallyOf(rows, ambiguous, keys[i]) && KeyOf(ts[i]) == keys[i]
                  && ts[i].matches == |HashesOf(rows, ambiguous, keys[i])|
                  && ts[i].longWindowMatches == |LongHashesOf(rows, ambiguous, keys[i])|)
  {
    hide KeysOf, TallyOf, HashesOf, LongHashesOf, KeyOf;
    KeysHaveTallies(rows, ambiguous);
    KeysAre(rows, ambiguous);
    var keys := KeysOf(rows, ambiguous);
    forall i | 0 <= i < |keys|
      ensures KeyOf(TallyOf(rows, ambiguous, keys[i]).value) == keys[i]
      ensures TallyOf(rows, ambiguous, keys[i]).value.matches == |HashesOf(rows, ambiguous, keys[i])|
      ensures TallyOf(rows, ambiguous, keys[i]).value.longWindowMatches == |LongHashesOf(rows, ambiguous, keys[i])|
    {
      TallyMeans(rows, ambiguous, keys[i]);
    }
  }

  ghost predicate SameRows(rows: seq<Row>, rows': seq<Row>) { forall r :: r in rows <==> r in rows' }

  lemma KeysPermute(rows: seq<Row>, rows': seq<Row>)
    requires SameRows(rows, rows')
    ensures multiset(KeysOf(rows, Ambiguous(rows))) == multiset(KeysOf(rows', Ambiguous(rows')))
  {
    hide Ambiguous, KeysOf, HashesOf;
    KeysAre(rows, Ambiguous(rows));
    KeysAre(rows', Ambiguous(rows'));
    forall k
      ensures k in KeysOf(rows, Ambiguous(rows)) <==> k in KeysOf(rows', Ambiguous(rows'))
    {
      OrderDoesNotMatter(rows, rows', k);
    }
    SameDistinct(KeysOf(rows, Ambiguous(rows)), KeysOf(rows', Ambiguous(rows')));
  }

  function AtLeast(): (nat, nat) -> bool { (a: nat, b: nat) => a >= b }

  lemma AtLeastIsPreorder()
    ensures TotalPreorder(AtLeast()) && forall s: seq<nat> :: NoTies(AtLeast(), Itself(), s)
  {}

  lemma RankedFalls(collates: (string, string) -> bool, ts: seq<Tally>)
    requires TotalPreorder(collates)
    ensures Sorted(AtLeast(), Itself(), Map(Ranked(collates, ts), MatchesOf()))
    ensures multiset(Ranked(collates, ts)) == multiset(ts)
  {
    var c := Ranked(collates, ts);
    RankByIsPreorder(collates);
    SortSorts(RankBy(collates), RankOf(), ts);
    SortPermutes(RankBy(collates), RankOf(), ts);
    forall i, j | 0 <= i < j < |c|
      ensures c[i].matches >= c[j].matches
    {
      assert RankBy(collates)(RankOf()(c[i]), RankOf()(c[j]));
    }
  }

  /** The match counts in rank order do not depend on the order of rows, nor on repeated ones. */
  lemma CountsIgnoreOrder(collates: (string, string) -> bool, rows: seq<Row>, rows': seq<Row>)
    requires TotalPreorder(collates) && SameRows(rows, rows')
    ensures Map(Ranked(collates, Standing(rows, Ambiguous(rows))), MatchesOf()) ==
            Map(Ranked(collates, Standing(rows', Ambiguous(rows'))), MatchesOf())
  {
    hide Ambiguous, Ranked, TotalPreorder, KeysOf, HashesOf, Standing;
    var ts, ts' := Standing(rows, Ambiguous(rows)), Standing(rows', Ambiguous(rows'));
    StandingCounts(rows, rows');
    RankedFalls(collates, ts);
    RankedFalls(collates, ts');
    MapPermutes(Ranked(collates, ts), ts, MatchesOf());
    MapPermutes(Ranked(collates, ts'), ts', MatchesOf());
    AtLeastIsPreorder();
    SortedPermutationsAgree(AtLeast(), Map(Ranked(collates, ts), MatchesOf()), Map(Ranked(collates, ts'), MatchesOf()));
  }

  lemma StandingCounts(rows: seq<Row>, rows': seq<Row>)
    requires SameRows(rows, rows')
    ensures multiset(Map(Standing(rows, Ambiguous(rows)), MatchesOf())) == multiset(Map(Standing(rows', Ambiguous(rows')), MatchesOf()))
  {
    hide Ambiguous, KeysOf, HashesOf, Standing, SameRows;
    var count := CountOf(rows, Ambiguous(rows));
    KeysPermute(rows, rows');
    MapPermutes(KeysOf(rows, Ambiguous(rows)), KeysOf(rows', Ambiguous(rows')), count);
    StandingMeans(rows, Ambiguous(rows));
    StandingMeans(rows', Ambiguous(rows'));
    assert Map(Standing(rows, Ambiguous(rows)), MatchesOf()) == Map(KeysOf(rows, Ambiguous(rows)), count);
    forall k
      ensures HashesOf(rows, Ambiguous(rows), k) == HashesOf(rows', Ambiguous(rows'), k)
    {
      OrderDoesNotMatter(rows, rows', k);
    }
    assert Map(Standing(rows', Ambiguous(rows')), MatchesOf()) == Map(KeysOf(rows', Ambiguous(rows')), count);
  }

  // The ranking

  /** A candidate's place in the ranking. */
  datatype Place = Place(clientId: string, cloakId: string, matches: nat) {
    function KeyIs(): string { clientId + [SEPARATOR] + cloakId }
  }

  function PlaceOf(): Tally -> Place { (t: Tally) => Place(t.clientId, t.cloakId, t.matches) }

  function PlacesOf(ts: seq<Tally>): seq<Place> { Map(ts, PlaceOf()) }

  function PlaceRank(): Place -> (nat, string) { (p: Place) => (p.matches, p.clientId + "|" + p.cloakId) }

  function LabelOf(r: Row): string { r.clientId + "|" + r.cloakId }

  /** No two clients or cloaks have unambiguous rows under one key. */
  ghost predicate OwnKeys(rows: seq<Row>) {
    forall r, s :: r in rows && s in rows && r.gramHash !in Ambiguous(rows) && s.gramHash !in Ambiguous(rows) && Key(r) == Key(s) ==>
                     r.clientId == s.clientId && r.cloakId == s.cloakId
  }

  /** Candidates of two keys with equal counts and with labels that the collation holds for equal. */
  ghost predicate TieOf(collates: (string, string) -> bool, rows: seq<Row>, r: Row, s: Row) {
    && r in rows && s in rows && r.gramHash !in Ambiguous(rows) && s.gramHash !in Ambiguous(rows) && Key(r) != Key(s)
    && |HashesOf(rows, Ambiguous(rows), Key(r))| == |HashesOf(rows, Ambiguous(rows), Key(s))|
    && Ties(collates, LabelOf(r), LabelOf(s))
  }

  ghost predicate HasTie(collates: (string, string) -> bool, rows: seq<Row>) {
    exists r, s :: TieOf(collates, rows, r, s)
  }

  /** Client ids without the separator have keys of their own. */
  lemma PlainIdsOwnKeys(rows: seq<Row>)
    requires forall r :: r in rows ==> SEPARATOR !in r.clientId
    ensures OwnKeys(rows)
  {
    hide Ambiguous;
    forall r, s | r in rows && s in rows && Key(r) == Key(s)
      ensures r.clientId == s.clientId && r.cloakId == s.cloakId
    {
      SplitOnce(r.clientId, r.cloakId, s.clientId, s.cloakId, SEPARATOR);
    }
  }

  ghost predicate IsPlace(rows: seq<Row>, p: Place) {
    && p.matches == |HashesOf(rows, Ambiguous(rows), p.KeyIs())|
    && exists r :: r in rows && r.gramHash !in Ambiguous(rows) && r.clientId == p.clientId && r.cloakId == p.cloakId
  }

  /** The places are those of the unambiguous rows, each once. */
  lemma StandingPlaces(rows: seq<Row>)
    ensures var ps := PlacesOf(Standing(rows, Ambiguous(rows)));
            && Distinct(ps) && (forall p :: p in ps ==> IsPlace(rows, p))
            && (OwnKeys(rows) ==> forall p :: IsPlace(rows, p) ==> p in ps)
  {
    hide Ambiguous, TallyOf, KeysOf, HashesOf, Standing;
    var ambiguous := Ambiguous(rows);
    var keys, ts := KeysOf(rows, ambiguous), Standing(rows, ambiguous);
    StandingMeans(rows, ambiguous);
    var ps := PlacesOf(ts);
    forall i | 0 <= i < |ps|
      ensures ps[i].KeyIs() == keys[i] && IsPlace(rows, ps[i])
      ensures exists r :: r in rows && r.gramHash !in ambiguous && Key(r) == keys[i]
                          && r.clientId == ps[i].clientId && r.cloakId == ps[i].cloakId
    {
      TallyMeans(rows, ambiguous, keys[i]);
    }
    if OwnKeys(rows) {
      forall p | IsPlace(rows, p)
        ensures p in ps
      {
        var r :| r in rows && r.gramHash !in ambiguous && r.clientId == p.clientId && r.cloakId == p.cloakId;
        assert Key(r) == p.KeyIs() && r.gramHash in HashesOf(rows, ambiguous, p.KeyIs()) by {
          HashIsHeld(rows, ambiguous, r);
        }
        var i :| 0 <= i < |keys| && keys[i] == p.KeyIs();
        assert ps[i] == p;
      }
    }
  }

  lemma HashIsHeld(rows: seq<Row>, ambiguous: set<string>, r: Row)
    requires r in rows && r.gramHash !in ambiguous
    ensures r.gramHash in HashesOf(rows, ambiguous, Key(r))
  {}

  lemma SamePlaces(rows: seq<Row>, rows': seq<Row>)
    requires OwnKeys(rows) && SameRows(rows, rows')
    ensures multiset(PlacesOf(Standing(rows, Ambiguous(rows)))) == multiset(PlacesOf(Standing(rows', Ambiguous(rows'))))
  {
    OrderDoesNotMatter(rows, rows', "");
    assert OwnKeys(rows');
    forall p
      ensures IsPlace(rows, p) <==> IsPlace(rows', p)
    {
      OrderDoesNotMatter(rows, rows', p.KeyIs());
    }
    hide Ambiguous, OwnKeys, IsPlace, Standing;
    StandingPlaces(rows);
    StandingPlaces(rows');
    SameDistinct(PlacesOf(Standing(rows, Ambiguous(rows))), PlacesOf(Standing(rows', Ambiguous(rows'))));
  }

  lemma TiedPlaces(collates: (string, string) -> bool, rows: seq<Row>, p: Place, q: Place)
    requires OwnKeys(rows) && IsPlace(rows, p) && IsPlace(rows, q) && p != q
    requires Ties(RankBy(collates), PlaceRank()(p), PlaceRank()(q))
    ensures HasTie(collates, rows)
  {
    hide Ambiguous, HashesOf;
    var r :| r in rows && r.gramHash !in Ambiguous(rows) && r.clientId == p.clientId && r.cloakId == p.cloakId;
    var s :| s in rows && s.gramHash !in Ambiguous(rows) && s.clientId == q.clientId && s.cloakId == q.cloakId;
    assert Key(r) == p.KeyIs() && Key(s) == q.KeyIs();
    assert TieOf(collates, rows, r, s);
  }

  lemma PlacesDoNotTie(collates: (string, string) -> bool, rows: seq<Row>)
    requires OwnKeys(rows) && !HasTie(collates, rows)
    ensures NoTies(RankBy(collates), PlaceRank(), PlacesOf(Standing(rows, Ambiguous(rows))))
  {
    hide Ambiguous, Standing, HasTie, OwnKeys, IsPlace, Ties;
    StandingPlaces(rows);
    var ps := PlacesOf(Standing(rows, Ambiguous(rows)));
    forall p, q | p in ps && q in ps && p != q
      ensures !Ties(RankBy(collates), PlaceRank()(p), PlaceRank()(q))
    {
      if Ties(RankBy(collates), PlaceRank()(p), PlaceRank()(q)) {
        TiedPlaces(collates, rows, p, q);
      }
    }
  }

  lemma {:induction false} PlacesOfInsert(leq: ((nat, string), (nat, string)) -> bool, x: Tally, ts: seq<Tally>)
    ensures PlacesOf(Insert(leq, RankOf(), x, ts)) == Insert(leq, PlaceRank(), PlaceOf()(x), PlacesOf(ts))
  {
    var n := |ts| - 1;
    assert RankOf()(x) == PlaceRank()(PlaceOf()(x));
    if ts == [] {
    } else if leq(RankOf()(ts[n]), RankOf()(x)) {
      assert PlacesOf(ts + [x]) == PlacesOf(ts) + [PlaceOf()(x)];
    } else {
      PlacesOfInsert(leq, x, ts[..n]);
      assert PlacesOf(ts)[..n] == PlacesOf(ts[..n]);
    }
  }

  lemma {:induction false} PlacesOfSort(leq: ((nat, string), (nat, string)) -> bool, ts: seq<Tally>)
    ensures PlacesOf(Sort(leq, RankOf(), ts)) == Sort(leq, PlaceRank(), PlacesOf(ts))
  {
    if ts != [] {
      var n := |ts| - 1;
      PlacesOfSort(leq, ts[..n]);
      PlacesOfInsert(leq, ts[n], Sort(leq, RankOf(), ts[..n]));
      assert PlacesOf(ts)[..n] == PlacesOf(ts[..n]);
    }
  }

  function RankedPlaces(collates: (string, string) -> bool, rows: seq<Row>): seq<Place> {
    PlacesOf(Ranked(collates, Standing(rows, Ambiguous(rows))))
  }

  lemma RankedPlacesSort(collates: (string, string) -> bool, rows: seq<Row>)
    ensures RankedPlaces(collates, rows) == Sort(RankBy(collates), PlaceRank(), PlacesOf(Standing(rows, Ambiguous(rows))))
  {
    hide Standing, Ambiguous;
    PlacesOfSort(RankBy(collates), Standing(rows, Ambiguous(rows)));
  }

  lemma {:induction false} HeadIsFirst(rows: seq<Row>, p: Row -> bool)
    requires rows != [] && p(rows[0])
    ensures First(rows, p) == Some(rows[0])
  {
    if |rows| > 1 {
      HeadIsFirst(rows[..|rows| - 1], p);
    } else {
      assert rows[..0] == [];
    }
  }

  lemma {:induction false} HeadKeyIsFirst(rows: seq<Row>, ambiguous: set<string>)
    requires rows != [] && rows[0].gramHash !in ambiguous
    ensures KeysOf(rows, ambiguous) != [] && KeysOf(rows, ambiguous)[0] == Key(rows[0])
  {
    hide Key;
    if |rows| > 1 {
      HeadKeyIsFirst(rows[..|rows| - 1], ambiguous);
    } else {
      assert rows[..0] == [];
    }
  }

  /** The first row, if its hash is unambiguous, founds the first tally. */
  lemma HeadPlace(rows: seq<Row>)
    requires rows != [] && rows[0].gramHash !in Ambiguous(rows)
    ensures var ps, r := PlacesOf(Standing(rows, Ambiguous(rows))), rows[0];
            && ps != [] && ps[0] == Place(r.clientId, r.cloakId, |HashesOf(rows, Ambiguous(rows), Key(r))|)
            && ps[0].KeyIs() == Key(r)
  {
    hide Ambiguous, KeysOf, TallyOf, HashesOf, Standing, First;
    HeadKeyIsFirst(rows, Ambiguous(rows));
    StandingMeans(rows, Ambiguous(rows));
    HeadIsFirst(rows, Counts(Ambiguous(rows), Key(rows[0])));
    TallyMeans(rows, Ambiguous(rows), Key(rows[0]));
  }

  /** Whoever comes first of two candidates that tie is ranked first of the two. */
  lemma TieIsWonByOrder(collates: (string, string) -> bool, rows: seq<Row>, rows': seq<Row>)
    requires TotalPreorder(collates) && SameRows(rows, rows') && rows != [] && rows' != []
    requires TieOf(collates, rows, rows[0], rows'[0])
    ensures RankedPlaces(collates, rows) != RankedPlaces(collates, rows')
  {
    hide TotalPreorder, Ambiguous, HashesOf, Standing, RankedPlaces, SameRows;
    OrderDoesNotMatter(rows, rows', Key(rows'[0]));
    HeadPlace(rows);
    HeadPlace(rows');
    RankedPlacesSort(collates, rows);
    RankedPlacesSort(collates, rows');
    RankByIsPreorder(collates);
    if RankedPlaces(collates, rows) == RankedPlaces(collates, rows') {
      SameSortSameHead(RankBy(collates), PlaceRank(), PlacesOf(Standing(rows, Ambiguous(rows))),
                       PlacesOf(Standing(rows', Ambiguous(rows'))));
    }
  }

  /** Whoever comes first of two clients that share a key gives the candidate its name. */
  lemma SharedKeyIsWonByOrder(collates: (string, string) -> bool, rows: seq<Row>, rows': seq<Row>)
    requires SameRows(rows, rows') && rows != [] && rows' != []
    requires rows[0].gramHash !in Ambiguous(rows) && rows'[0].gramHash !in Ambiguous(rows) && Key(rows[0]) == Key(rows'[0])
    requires rows[0].clientId != rows'[0].clientId || rows[0].cloakId != rows'[0].cloakId
    ensures RankedPlaces(collates, rows) != RankedPlaces(collates, rows')
  {
    hide Ambiguous, HashesOf, Standing, SameRows;
    OrderDoesNotMatter(rows, rows', Key(rows'[0]));
    HeadPlace(rows);
    HeadPlace(rows');
    var ps, ps' := PlacesOf(Standing(rows, Ambiguous(rows))), PlacesOf(Standing(rows', Ambiguous(rows')));
    RankedPlacesSort(collates, rows);
    RankedPlacesSort(collates, rows');
    SortPermutes(RankBy(collates), PlaceRank(), ps);
    SortPermutes(RankBy(collates), PlaceRank(), ps');
    if RankedPlaces(collates, rows) == RankedPlaces(collates, rows') {
      assert multiset(ps) == multiset(ps');
      SameMembers(ps, ps');
      assert ps[0] in ps;
      var i :| 0 <= i < |ps'| && ps'[i] == ps[0];
      StandingMeans(rows', Ambiguous(rows'));
      KeysOfPlaces(rows', i);
      KeysOfPlaces(rows', 0);
      assert false;
    }
  }

  lemma KeysOfPlaces(rows: seq<Row>, i: nat)
    requires i < |KeysOf(rows, Ambiguous(rows))|
    ensures var ps := PlacesOf(Standing(rows, Ambiguous(rows)));
            i < |ps| && ps[i].KeyIs() == KeysOf(rows, Ambiguous(rows))[i]
  {
    hide Ambiguous, KeysOf, TallyOf, HashesOf, Standing;
    StandingMeans(rows, Ambiguous(rows));
  }

  /**
    * The ranking of clients, cloaks and counts is the same for every order of the rows if and only if clients do not
    * share keys and no two candidates with equal counts have labels that collate equal.
    */
  lemma RankingIgnoresOrder(collates: (string, string) -> bool, rows: seq<Row>)
    requires TotalPreorder(collates)
    ensures (forall rows' :: multiset(rows') == multiset(rows) ==> RankedPlaces(collates, rows') == RankedPlaces(collates, rows))
            <==> OwnKeys(rows) && !HasTie(collates, rows)
  {
    hide TotalPreorder, RankedPlaces, TieOf;
    if !OwnKeys(rows) {
      var r, s :| r in rows && s in rows && r.gramHash !in Ambiguous(rows) && s.gramHash !in Ambiguous(rows)
                  && Key(r) == Key(s) && (r.clientId != s.clientId || r.cloakId != s.cloakId);
      MovedSame(rows, r, s);
      SharedKeyIsWonByOrder(collates, ToFront(rows, r), ToFront(rows, s));
      SomeOrderDiffers(collates, rows, ToFront(rows, r), ToFront(rows, s));
    } else if HasTie(collates, rows) {
      var r, s :| TieOf(collates, rows, r, s);
      TieStays(collates, rows, r, s);
      MovedSame(rows, r, s);
      TieIsWonByOrder(collates, ToFront(rows, r), ToFront(rows, s));
      SomeOrderDiffers(collates, rows, ToFront(rows, r), ToFront(rows, s));
    } else {
      forall rows' | multiset(rows') == multiset(rows)
        ensures RankedPlaces(collates, rows') == RankedPlaces(collates, rows)
      {
        NoTieNoOrder(collates, rows, rows');
      }
    }
  }

  lemma SomeOrderDiffers(collates: (string, string) -> bool, rows: seq<Row>, t: seq<Row>, u: seq<Row>)
    requires multiset(t) == multiset(rows) == multiset(u) && RankedPlaces(collates, t) != RankedPlaces(collates, u)
    ensures exists rows' :: multiset(rows') == multiset(rows) && RankedPlaces(collates, rows') != RankedPlaces(collates, rows)
  {
    hide RankedPlaces;
    var rows' := if RankedPlaces(collates, t) == RankedPlaces(collates, rows) then u else t;
    assert multiset(rows') == multiset(rows) && RankedPlaces(collates, rows') != RankedPlaces(collates, rows);
  }

  lemma MovedSame(rows: seq<Row>, r: Row, s: Row)
    requires r in rows && s in rows
    ensures SameRows(ToFront(rows, r), ToFront(rows, s)) && Ambiguous(ToFront(rows, r)) == Ambiguous(rows)
  {
    hide Ambiguous;
    SameMembers(ToFront(rows, r), rows);
    SameMembers(ToFront(rows, s), rows);
    OrderDoesNotMatter(ToFront(rows, r), rows, "");
  }

  lemma TieStays(collates: (string, string) -> bool, rows: seq<Row>, r: Row, s: Row)
    requires TieOf(collates, rows, r, s)
    ensures r in rows && s in rows && TieOf(collates, ToFront(rows, r), r, s)
  {
    hide Ambiguous, HashesOf;
    SameMembers(ToFront(rows, r), rows);
    OrderDoesNotMatter(ToFront(rows, r), rows, Key(r));
    OrderDoesNotMatter(ToFront(rows, r), rows, Key(s));
  }

  lemma NoTieNoOrder(collates: (string, string) -> bool, rows: seq<Row>, rows': seq<Row>)
    requires TotalPreorder(collates) && OwnKeys(rows) && !HasTie(collates, rows) && multiset(rows') == multiset(rows)
    ensures RankedPlaces(collates, rows') == RankedPlaces(collates, rows)
  {
    SameMembers(rows, rows');
    hide TotalPreorder, Ambiguous, OwnKeys, HasTie, RankedPlaces, Standing;
    SamePlaces(rows, rows');
    PlacesDoNotTie(collates, rows);
    RankByIsPreorder(collates);
    RankedPlacesSort(collates, rows);
    RankedPlacesSort(collates, rows');
    PermutationsSortAlike(RankBy(collates), PlaceRank(), PlacesOf(Standing(rows, Ambiguous(rows))),
                          PlacesOf(Standing(rows', Ambiguous(rows'))));
  }

  /** Two clients whose ids are canonically equivalent, one hash each. */
  function TwinRows(): seq<Row> {
    [Row("\U{00E9}", "x", "d", "g", None), Row("e\U{0301}", "x", "d", "h", None)]
  }

  /** A collation that holds them for equal, as that of a locale does, leaves their ranking to the order of the rows. */
  lemma TwinsAreRankedByOrder(collates: (string, string) -> bool)
    requires TotalPreorder(collates) && Ties(collates, LabelOf(TwinRows()[0]), LabelOf(TwinRows()[1]))
    ensures var (r, s) := (TwinRows()[0], TwinRows()[1]);
            RankedPlaces(collates, [r] + [s]) != RankedPlaces(collates, [s] + [r])
  {
    var (r, s) := (TwinRows()[0], TwinRows()[1]);
    assert |Key(r)| == 3 && |Key(s)| == 4 && r.gramHash[0] != s.gramHash[0];
    hide Key, RankedPlaces, TotalPreorder;
    TwoKeys(r, s);
    TieIsWonByOrder(collates, [r] + [s], [s] + [r]);
  }

  lemma TwoKeys(r: Row, s: Row)
    requires Key(r) != Key(s) && r.gramHash != s.gramHash
    ensures var both := [r] + [s];
            Ambiguous(both) == {} && HashesOf(both, {}, Key(r)) == {r.gramHash} && HashesOf(both, {}, Key(s)) == {s.gramHash}
  {
    hide Key;
    OneHashEach(r, s);
    HashesNext([r], s, {}, Key(r));
    HashesNext([r], s, {}, Key(s));
    SingleRow(r);
    assert HashesOf([r], {}, Key(s)) == {};
  }

  // The verdict

  /** The top meets the threshold and leads the runner-up by more than a fifth, so that its long windows decide. */
  predicate LongWindowsDecide(ranked: seq<Tally>, threshold: int) {
    && ranked != [] && ranked[0].matches >= threshold
    && (|ranked| >= 2 ==> ranked[1].matches < FourFifths(ranked[0].matches))
  }

  /** Long windows matter for exactly the tops that lead clearly; nowhere else is the verdict changed by them. */
  lemma StrongWithoutLongWindow(ranked: seq<Tally>, threshold: int)
    requires ranked != []
    ensures var long, short := ranked[0 := ranked[0].(longWindowMatches := 1)], ranked[0 := ranked[0].(longWindowMatches := 0)];
            && (Judge(long, threshold) != Judge(short, threshold) <==> LongWindowsDecide(ranked, threshold))
            && (|ranked| >= 2 && FourFifths(ranked[0].matches) <= ranked[1].matches < ranked[0].matches
                && ranked[1].matches < threshold <= ranked[0].matches
                ==> Judge(short, threshold) == Judge(long, threshold) == Strong)
  {}

  /** Every hash of the key is held by a row with a short window, and one of them by a row with a long one, too. */
  ghost predicate MixedWindows(rows: seq<Row>, ambiguous: set<string>, key: string) {
    && (forall h :: h in HashesOf(rows, ambiguous, key) ==> Held(rows, key, h, false))
    && exists h :: h in HashesOf(rows, ambiguous, key) && Held(rows, key, h, true)
  }

  ghost predicate Held(rows: seq<Row>, key: string, hash: string, long: bool) {
    exists r :: r in rows && Holds(key, hash)(r) && IsLong(r) == long
  }

  /** Where equal hashes come from windows of one kind, no key has mixed windows. */
  lemma SameWindowsDoNotMix(rows: seq<Row>, ambiguous: set<string>, key: string)
    requires forall r, s :: r in rows && s in rows && r.gramHash == s.gramHash ==> (IsLong(r) <==> IsLong(s))
    ensures !MixedWindows(rows, ambiguous, key)
  {
    hide Key, IsLong, HashesOf;
  }

  lemma LongHashesMean(rows: seq<Row>, ambiguous: set<string>, key: string)
    ensures (forall h :: h in HashesOf(rows, ambiguous, key) ==> !Held(rows, key, h, true)) ==> LongHashesOf(rows, ambiguous, key) == {}
    ensures (exists h :: h in HashesOf(rows, ambiguous, key) && !Held(rows, key, h, false)) ==> LongHashesOf(rows, ambiguous, key) != {}
  {
    hide Key, IsLong, First;
    forall h | h in HashesOf(rows, ambiguous, key)
      ensures !Held(rows, key, h, true) ==> h !in LongHashesOf(rows, ambiguous, key)
      ensures !Held(rows, key, h, false) ==> h in LongHashesOf(rows, ambiguous, key)
    {
      FirstIs(rows, Holds(key, h));
      var r :| r in rows && Key(r) == key && r.gramHash !in ambiguous && r.gramHash == h;
      assert Holds(key, h)(r);
    }
  }

  /** Without mixed windows, the order of rows does not matter for whether a key has long windows. */
  lemma LongIgnoresOrder(rows: seq<Row>, rows': seq<Row>, key: string)
    requires SameRows(rows, rows') && !MixedWindows(rows, Ambiguous(rows), key)
    ensures LongHashesOf(rows, Ambiguous(rows), key) == {} <==> LongHashesOf(rows', Ambiguous(rows'), key) == {}
  {
    hide Ambiguous, Holds, IsLong, HashesOf, LongHashesOf;
    OrderDoesNotMatter(rows, rows', key);
    forall h, long
      ensures Held(rows, key, h, long) <==> Held(rows', key, h, long)
    {}
    hide Held;
    LongHashesMean(rows, Ambiguous(rows), key);
    LongHashesMean(rows', Ambiguous(rows'), key);
  }

  /** The top holds the counts of its key, and no other key has more than the runner-up. */
  lemma TopMeans(collates: (string, string) -> bool, rows: seq<Row>)
    requires TotalPreorder(collates)
    ensures var c, ambiguous := Ranked(collates, Standing(rows, Ambiguous(rows))), Ambiguous(rows);
            c != [] ==>
            && HashesOf(rows, ambiguous, KeyOf(c[0])) != {}
            && c[0].matches == |HashesOf(rows, ambiguous, KeyOf(c[0]))|
            && c[0].longWindowMatches == |LongHashesOf(rows, ambiguous, KeyOf(c[0]))|
            && forall k :: k != KeyOf(c[0]) && HashesOf(rows, ambiguous, k) != {} ==>
                             |c| >= 2 && |HashesOf(rows, ambiguous, k)| <= c[1].matches
  {
    hide Ambiguous, Standing, Ranked, KeysOf, HashesOf, LongHashesOf, TallyOf, KeyOf;
    var ambiguous := Ambiguous(rows);
    var keys, ts := KeysOf(rows, ambiguous), Standing(rows, ambiguous);
    var c := Ranked(collates, ts);
    RankedFalls(collates, ts);
    hide TotalPreorder;
    StandingMeans(rows, ambiguous);
    if c != [] {
      SameMembers(c, ts);
      assert c[0] in c;
      var j :| 0 <= j < |ts| && ts[j] == c[0];
      assert keys[j] in keys;
      forall k | k != KeyOf(c[0]) && HashesOf(rows, ambiguous, k) != {}
        ensures |c| >= 2 && |HashesOf(rows, ambiguous, k)| <= c[1].matches
      {
        assert k in keys;
        var n :| 0 <= n < |keys| && keys[n] == k;
        assert ts[n] in ts;
        var i :| 0 <= i < |c| && c[i] == ts[n];
        assert i != 0;
        assert Map(c, MatchesOf())[1] >= Map(c, MatchesOf())[i];
      }
    }
  }

  /** What order and repetition of rows never change, and the top where it leads. */
  lemma SameTop(collates: (string, string) -> bool, rows: seq<Row>, rows': seq<Row>)
    requires TotalPreorder(collates) && SameRows(rows, rows')
    ensures var c, c' := Ranked(collates, Standing(rows, Ambiguous(rows))), Ranked(collates, Standing(rows', Ambiguous(rows')));
            && |c| == |c'| && (forall i :: 0 <= i < |c| ==> c[i].matches == c'[i].matches)
            && (c != [] && (|c| >= 2 ==> c[1].matches < c[0].matches) ==> KeyOf(c[0]) == KeyOf(c'[0]))
  {
    hide Ambiguous, Standing, Ranked, HashesOf, TotalPreorder, KeyOf, LongHashesOf;
    CountsIgnoreOrder(collates, rows, rows');
    var c, c' := Ranked(collates, Standing(rows, Ambiguous(rows))), Ranked(collates, Standing(rows', Ambiguous(rows')));
    assert |Map(c, MatchesOf())| == |Map(c', MatchesOf())|;
    forall i | 0 <= i < |c|
      ensures c[i].matches == c'[i].matches
    {
      assert Map(c, MatchesOf())[i] == Map(c', MatchesOf())[i];
    }
    TopMeans(collates, rows);
    TopMeans(collates, rows');
    if c != [] {
      OrderDoesNotMatter(rows, rows', KeyOf(c'[0]));
    }
  }

  /** The guard, the total and the match counts never depend on the order of rows. */
  lemma CountsAreSteady(collates: (string, string) -> bool, suspectHashes: nat, rows: seq<Row>, rows': seq<Row>, threshold: Option<int>)
    requires TotalPreorder(collates) && SameRows(rows, rows')
    ensures var v, v' := Attribute(collates, suspectHashes, rows, threshold), Attribute(collates, suspectHashes, rows', threshold);
            && v.ambiguousDropped == v'.ambiguousDropped && v.totalMatchedGrams == v'.totalMatchedGrams
            && |v.candidates| == |v'.candidates|
            && forall i :: 0 <= i < |v.candidates| ==> v.candidates[i].matches == v'.candidates[i].matches
  {
    hide Ambiguous, Standing, Ranked, TotalMatches, Triples, Judge, TotalPreorder;
    SameTop(collates, rows, rows');
    TotalCountsTriples(collates, suspectHashes, rows, threshold);
    TotalCountsTriples(collates, suspectHashes, rows', threshold);
    OrderDoesNotMatter(rows, rows', "");
    TriplesIgnoreOrder(rows, rows');
  }

  lemma TriplesIgnoreOrder(rows: seq<Row>, rows': seq<Row>)
    requires SameRows(rows, rows')
    ensures Triples(rows) == Triples(rows')
  {
    hide Ambiguous;
    OrderDoesNotMatter(rows, rows', "");
  }

  /** The top leads clearly, and whether it has long windows depends on which of its rows come first. */
  ghost predicate OrderDecides(collates: (string, string) -> bool, rows: seq<Row>, threshold: int) {
    var c := Ranked(collates, Standing(rows, Ambiguous(rows)));
    LongWindowsDecide(c, threshold) && MixedWindows(rows, Ambiguous(rows), KeyOf(c[0]))
  }

  lemma VerdictStays(collates: (string, string) -> bool, rows: seq<Row>, rows': seq<Row>, threshold: int)
    requires TotalPreorder(collates) && SameRows(rows, rows') && !OrderDecides(collates, rows, threshold)
    ensures Judge(Ranked(collates, Standing(rows, Ambiguous(rows))), threshold) ==
            Judge(Ranked(collates, Standing(rows', Ambiguous(rows'))), threshold)
  {
    hide Ambiguous, Standing, Ranked, TotalPreorder, HashesOf, LongHashesOf, KeyOf, MixedWindows;
    var c, c' := Ranked(collates, Standing(rows, Ambiguous(rows))), Ranked(collates, Standing(rows', Ambiguous(rows')));
    SameTop(collates, rows, rows');
    TopMeans(collates, rows);
    TopMeans(collates, rows');
    if LongWindowsDecide(c, threshold) {
      LeadIsStrict(c, threshold);
      LongIgnoresOrder(rows, rows', KeyOf(c[0]));
    }
  }

  lemma LeadIsStrict(c: seq<Tally>, threshold: int)
    requires LongWindowsDecide(c, threshold)
    ensures |c| >= 2 ==> c[1].matches < c[0].matches
  {}

  lemma FirstOfConcat(x: seq<Row>, y: seq<Row>, p: Row -> bool)
    ensures First(x + y, p) == if First(x, p).Some? then First(x, p) else First(y, p)
    decreases |y|
  {
    if y == [] {
      assert x + y == x;
    } else {
      var n := |y| - 1;
      assert x + y == (x + y[..n]) + [y[n]] && y == y[..n] + [y[n]];
      FirstOfConcat(x, y[..n], p);
      FirstNext(x + y[..n], y[n], p);
    }
  }

  function OfLength(long: bool): Row -> bool { (r: Row) => IsLong(r) == long }

  /** The rows with long windows in front, or those with short ones. */
  function Parted(rows: seq<Row>, long: bool): seq<Row> { Filter(rows, OfLength(long)) + Filter(rows, OfLength(!long)) }

  lemma PartedPermutes(rows: seq<Row>, long: bool)
    ensures multiset(Parted(rows, long)) == multiset(rows) && SameRows(rows, Parted(rows, long))
  {
    hide IsLong;
    FilterCounts(rows, OfLength(long));
    FilterCounts(rows, OfLength(!long));
    var parted := Parted(rows, long);
    forall r
      ensures multiset(parted)[r] == multiset(rows)[r]
    {
      assert OfLength(long)(r) <==> !OfLength(!long)(r);
    }
    SameMembers(rows, parted);
  }

  /** With the one kind in front, a hash held by such a row has one as its first row. */
  lemma PartedFirst(rows: seq<Row>, key: string, hash: string, long: bool)
    requires Held(rows, key, hash, long)
    ensures First(Parted(rows, long), Holds(key, hash)).Some? && IsLong(First(Parted(rows, long), Holds(key, hash)).value) == long
  {
    hide IsLong, Holds, First;
    var front, p := Filter(rows, OfLength(long)), Holds(key, hash);
    FilterMember(rows, OfLength(long));
    FirstOfConcat(front, Filter(rows, OfLength(!long)), p);
    FirstIs(front, p);
    var r :| r in rows && p(r) && IsLong(r) == long;
    assert OfLength(long)(r);
    assert OfLength(long)(First(front, p).value);
  }

  lemma PartedLong(rows: seq<Row>, key: string, long: bool)
    requires MixedWindows(rows, Ambiguous(rows), key)
    ensures LongHashesOf(Parted(rows, long), Ambiguous(Parted(rows, long)), key) == {} <==> !long
  {
    hide Ambiguous, Holds, IsLong, Held, Parted, HashesOf;
    var parted := Parted(rows, long);
    PartedPermutes(rows, long);
    OrderDoesNotMatter(rows, parted, key);
    if long {
      var h :| h in HashesOf(rows, Ambiguous(rows), key) && Held(rows, key, h, true);
      PartedFirst(rows, key, h, true);
      assert h in LongHashesOf(parted, Ambiguous(parted), key);
    } else {
      forall h | h in HashesOf(rows, Ambiguous(rows), key)
        ensures h !in LongHashesOf(parted, Ambiguous(parted), key)
      {
        PartedFirst(rows, key, h, false);
      }
    }
  }

  lemma PartedVerdict(collates: (string, string) -> bool, rows: seq<Row>, threshold: int, long: bool)
    requires TotalPreorder(collates) && OrderDecides(collates, rows, threshold)
    ensures Judge(Ranked(collates, Standing(Parted(rows, long), Ambiguous(Parted(rows, long)))), threshold) ==
            if long then Strong else AmbiguousMatch
  {
    hide Ambiguous, Standing, Ranked, TotalPreorder, HashesOf, LongHashesOf, KeyOf, MixedWindows, Parted;
    var parted := Parted(rows, long);
    var c, c' := Ranked(collates, Standing(rows, Ambiguous(rows))), Ranked(collates, Standing(parted, Ambiguous(parted)));
    PartedPermutes(rows, long);
    SameTop(collates, rows, parted);
    LeadIsStrict(c, threshold);
    TopMeans(collates, parted);
    PartedLong(rows, KeyOf(c[0]), long);
  }

  /**
    * The verdict is the same for every order of the rows if and only if it is not the case that the top leads clearly
    * and has hashes with long and with short windows, all of them with short ones.
    */
  lemma VerdictIgnoresOrder(collates: (string, string) -> bool, suspectHashes: nat, rows: seq<Row>, threshold: Option<int>)
    requires TotalPreorder(collates)
    ensures (forall rows' :: multiset(rows') == multiset(rows) ==>
               Attribute(collates, suspectHashes, rows', threshold).verdict == Attribute(collates, suspectHashes, rows, threshold).verdict)
            <==> !OrderDecides(collates, rows, threshold.UnwrapOr(5))
  {
    hide Ambiguous, Standing, Ranked, TotalPreorder, OrderDecides, Parted, Judge, TotalMatches;
    var t := threshold.UnwrapOr(5);
    if OrderDecides(collates, rows, t) {
      PartedVerdict(collates, rows, t, true);
      PartedVerdict(collates, rows, t, false);
      PartedPermutes(rows, true);
      PartedPermutes(rows, false);
      var verdict := Attribute(collates, suspectHashes, rows, threshold).verdict;
      var rows' := Parted(rows, verdict != Strong);
      assert multiset(rows') == multiset(rows) && Attribute(collates, suspectHashes, rows', threshold).verdict != verdict;
    } else {
      forall rows' | multiset(rows') == multiset(rows)
        ensures Attribute(collates, suspectHashes, rows', threshold).verdict == Attribute(collates, suspectHashes, rows, threshold).verdict
      {
        SameMembers(rows, rows');
        VerdictStays(collates, rows, rows', t);
      }
    }
  }

  /** One hash of one client, from a short window and from one of unknown size, which counts as long. */
  function MixedRows(): seq<Row> { [Row("a", "x", "d", "h", Some(3)), Row("a", "x", "d", "h", None)] }

  /** The order of these two rows decides between an ambiguous and a strong verdict. */
  lemma OrderCanDecide(collates: (string, string) -> bool, suspectHashes: nat)
    requires TotalPreorder(collates)
    ensures var (short, long) := (MixedRows()[0], MixedRows()[1]);
            && OrderDecides(collates, [short] + [long], 1)
            && Attribute(collates, suspectHashes, [short] + [long], Some(1)).verdict == AmbiguousMatch
            && Attribute(collates, suspectHashes, [long] + [short], Some(1)).verdict == Strong
  {
    var (short, long) := (MixedRows()[0], MixedRows()[1]);
    hide TotalPreorder, Judge, Ranked, Standing, Ambiguous, TotalMatches, OrderDecides;
    MixedDecides(collates);
    MixedParts();
    PartedVerdict(collates, [short] + [long], 1, false);
    PartedVerdict(collates, [short] + [long], 1, true);
  }

  lemma MixedParts()
    ensures var (short, long) := (MixedRows()[0], MixedRows()[1]);
            Parted([short] + [long], false) == [short] + [long] && Parted([short] + [long], true) == [long] + [short]
  {
    var (short, long) := (MixedRows()[0], MixedRows()[1]);
    forall kind: bool
      ensures Filter([short] + [long], OfLength(kind)) == if kind then [long] else [short]
    {
      FilterConcat([short], [long], OfLength(kind));
      FilterOne(short, OfLength(kind));
      FilterOne(long, OfLength(kind));
    }
  }

  lemma MixedDecides(collates: (string, string) -> bool)
    requires TotalPreorder(collates)
    ensures OrderDecides(collates, [MixedRows()[0]] + [MixedRows()[1]], 1)
  {
    var (short, long) := (MixedRows()[0], MixedRows()[1]);
    var rows, key := [short] + [long], Key(short);
    MixedHashes();
    var c := Ranked(collates, Standing(rows, Ambiguous(rows)));
    hide Key, Ranked, Standing, TotalPreorder, Ambiguous, HashesOf, KeysOf;
    OneKey(collates, rows, key);
    assert Holds(key, "h")(short) && Holds(key, "h")(long);
    assert short in rows && long in rows;
    assert Held(rows, key, "h", false) && Held(rows, key, "h", true);
  }

  lemma MixedHashes()
    ensures var (short, long) := (MixedRows()[0], MixedRows()[1]);
            var rows := [short] + [long];
            && Ambiguous(rows) == {} && Key(short) == Key(long)
            && forall k :: HashesOf(rows, {}, k) == if k == Key(short) then {"h"} else {}
  {
    var (short, long) := (MixedRows()[0], MixedRows()[1]);
    hide Ambiguous, HashesOf;
    SameKey(short, long);
    hide Key;
    OneHash(short, long);
  }

  lemma OneHash(r: Row, s: Row)
    requires Key(r) == Key(s) && r.clientId == s.clientId && r.gramHash == s.gramHash
    ensures Ambiguous([r] + [s]) == {}
    ensures forall k :: HashesOf([r] + [s], {}, k) == if k == Key(r) then {r.gramHash} else {}
  {
    hide Key, Ambiguous, HashesOf;
    OneClient(r, s);
    forall k
      ensures HashesOf([r] + [s], {}, k) == if k == Key(r) then {r.gramHash} else {}
    {
      HashesNext([], r, {}, k);
      HashesNext([r], s, {}, k);
      NoHashes(k);
      assert [] + [r] == [r];
    }
  }

  lemma NoHashes(key: string)
    ensures HashesOf([], {}, key) == {}
  {}

  lemma OneClient(r: Row, s: Row)
    requires r.clientId == s.clientId
    ensures Ambiguous([r] + [s]) == {}
  {
    hide Owners;
    OwnersNext([r], s);
    forall h
      ensures |Owners([r] + [s], h)| <= 1
    {
      OwnersOfOne(r, h);
      AtMost(Owners([r] + [s], h), {r.clientId});
    }
  }

  lemma OwnersOfOne(r: Row, h: string)
    ensures Owners([r], h) == if h == r.gramHash then {r.clientId} else {}
  {}

  lemma SameKey(r: Row, s: Row)
    requires r.clientId == s.clientId && r.cloakId == s.cloakId
    ensures Key(r) == Key(s)
  {}

  /** Where only one key has hashes, it is the only candidate. */
  lemma OneKey(collates: (string, string) -> bool, rows: seq<Row>, key: string)
    requires TotalPreorder(collates) && forall k :: HashesOf(rows, Ambiguous(rows), k) != {} <==> k == key
    ensures var c := Ranked(collates, Standing(rows, Ambiguous(rows)));
            |c| == 1 && KeyOf(c[0]) == key && c[0].matches == |HashesOf(rows, Ambiguous(rows), key)|
  {
    hide Ranked, Standing, TotalPreorder, Ambiguous, HashesOf, LongHashesOf, KeysOf, KeyOf;
    var keys, ts := KeysOf(rows, Ambiguous(rows)), Standing(rows, Ambiguous(rows));
    StandingMeans(rows, Ambiguous(rows));
    RankedFalls(collates, ts);
    SameLength(Ranked(collates, ts), ts);
    assert key in keys;
    OnlyMember(keys, key);
    TopMeans(collates, rows);
  }

  lemma OnlyMember(keys: seq<string>, key: string)
    requires Distinct(keys) && forall k :: k in keys <==> k == key
    ensures |keys| == 1
  {
    DistinctCounts(keys);
    assert Elements(keys) == {key};
  }

  // ---- What a strong verdict means

  /**
    * Strong exactly when the top meets the threshold, strictly beats every other candidate, and either it has a long
    * window and leads the runner-up by a fifth, or the runner-up is within a fifth but below the threshold.
    */
  lemma StrongMeans(collates: (string, string) -> bool, suspectHashes: nat, rows: seq<Row>, threshold: Option<int>)
    requires TotalPreorder(collates)
    ensures var v := Attribute(collates, suspectHashes, rows, threshold);
            var c, t := v.candidates, threshold.UnwrapOr(5);
            v.verdict == Strong <==>
            && c != [] && c[0].matches >= t
            && (forall i :: 1 <= i < |c| ==> c[i].matches < c[0].matches)
            && ((c[0].longWindowMatches >= 1 && forall i :: 1 <= i < |c| ==> 5 * c[i].matches < 4 * c[0].matches)
                || (|c| >= 2 && 5 * c[1].matches >= 4 * c[0].matches && c[1].matches < t))
  {
    hide Standing, Ambiguous, TotalPreorder;
    var ts := Standing(rows, Ambiguous(rows));
    var c := Ranked(collates, ts);
    RankByIsPreorder(collates);
    SortSorts(RankBy(collates), RankOf(), ts);
    forall i | 1 <= i < |c|
      ensures c[i].matches <= c[1].matches <= c[0].matches
    {
      assert RankBy(collates)(RankOf()(c[0]), RankOf()(c[1]));
      assert i > 1 ==> RankBy(collates)(RankOf()(c[1]), RankOf()(c[i]));
    }
  }

  lemma RankByIsPreorder(collates: (string, string) -> bool)
    requires TotalPreorder(collates)
    ensures TotalPreorder(RankBy(collates))
  {
    var leq := RankBy(collates);
    forall a: (nat, string), b: (nat, string)
      ensures leq(a, b) || leq(b, a)
    {
      assert collates(a.1, b.1) || collates(b.1, a.1);
    }
    forall a: (nat, string), b: (nat, string), c: (nat, string)
      ensures leq(a, b) && leq(b, c) ==> leq(a, c)
    {
      assert collates(a.1, b.1) && collates(b.1, c.1) ==> collates(a.1, c.1);
    }
  }

  // ---- Windows

  /** The hashes of all windows of one size. */
  function WindowHashes(hash: seq<string> -> string, tokens: seq<string>, size: nat): (r: seq<string>)
    ensures |r| == if |tokens| < size then 0 else |tokens| - size + 1
  {
    if |tokens| < size then []
    else seq(|tokens| - size + 1, i requires 0 <= i < |tokens| - size + 1 => hash(tokens[i..i + size]))
  }

  function GramHashes(hash: seq<string> -> string, tokens: seq<string>, sizes: seq<nat>): seq<string> {
    if sizes == [] then []
    else GramHashes(hash, tokens, sizes[..|sizes| - 1]) + WindowHashes(hash, tokens, sizes[|sizes| - 1])
  }

  method SuspectGramHashes(hash: seq<string> -> string, tokens: seq<string>, sizes: seq<nat>) returns (out: seq<string>)
    ensures out == GramHashes(hash, tokens, sizes)
  {
    out := [];
    for k := 0 to |sizes|
      invariant out == GramHashes(hash, tokens, sizes[..k])
    {
      assert sizes[..k + 1][..k] == sizes[..k];
      var windows := HashWindows(hash, tokens, sizes[k]);
      out := out + windows;
    }
    assert sizes[..|sizes|] == sizes;
  }

  method HashWindows(hash: seq<string> -> string, tokens: seq<string>, ws: nat) returns (out: seq<string>)
    ensures out == WindowHashes(hash, tokens, ws)
  {
    out := [];
    if |tokens| < ws {
      return;
    }
    var i := 0;
    while i + ws <= |tokens|
      invariant 0 <= i <= |tokens| - ws + 1
      invariant out == WindowHashes(hash, tokens, ws)[..i]
    {
      out := out + [hash(tokens[i..i + ws])];
      i := i + 1;
    }
  }

  lemma {:induction false} HashIsThere(hash: seq<string> -> string, tokens: seq<string>, sizes: seq<nat>, k: nat, i: nat)
    requires k < |sizes| && i + sizes[k] <= |tokens|
    ensures hash(tokens[i..i + sizes[k]]) in GramHashes(hash, tokens, sizes)
    decreases |sizes|
  {
    var n := |sizes| - 1;
    if k == n {
      assert WindowHashes(hash, tokens, sizes[n])[i] == hash(tokens[i..i + sizes[n]]);
    } else {
      HashIsThere(hash, tokens, sizes[..n], k, i);
    }
  }

  /** A run of tokens that two texts share yields shared hashes, one per window that fits into it, whatever surrounds it. */
  lemma SharedRunIsSeen(hash: seq<string> -> string, sizes: seq<nat>, k: nat, before: seq<string>, run: seq<string>, after: seq<string>,
                        i: nat)
    requires k < |sizes| && i + sizes[k] <= |run|
    ensures hash(run[i..i + sizes[k]]) in GramHashes(hash, before + run + after, sizes)
  {
    hide GramHashes;
    SliceInside(before, run, after, i, sizes[k]);
    HashIsThere(hash, before + run + after, sizes, k, |before| + i);
  }

  lemma SliceInside(x: seq<string>, y: seq<string>, z: seq<string>, i: nat, n: nat)
    requires i + n <= |y|
    ensures |x + y + z| == |x| + |y| + |z| && (x + y + z)[|x| + i..|x| + i + n] == y[i..i + n]
  {}
}
