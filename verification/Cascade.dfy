/**
  * The cascade chain: every sentence of a document is hashed together with the hash before it. Verification
  * assigns candidate sentences to stored ones greedily, finds the first broken hash and detects reordering.
  */
module Cascade {
  import opened Decimals
  import opened Messages
  import opened Prelude
  import opened EditDistance
  import opened Ratios

  // ---- Building

  const GENESIS_HASH := "00000000000000000000000000000000"
  const SEPARATOR := "\U{241F}"
  const MODIFICATION_TOLERANCE := 0.2

  datatype Node = Node(index: nat, hash: string, normalized: string)

  datatype KeyDerivation = Global | HkdfV1

  datatype Chain = Chain(keyDerivation: KeyDerivation, nodes: seq<Node>)

  datatype CascadeError = SecretTooShort | ClientRequired

  /** HKDF with the client as salt, and HMAC-SHA256 cut to 16 bytes in hex. */
  datatype Crypto = Crypto(derive: (string, string) -> string, mac: (string, string) -> string)

  function TenantSecret(x: Crypto, master: string, client: string): Result<string, CascadeError> {
    if |master| < 8 then Err(SecretTooShort)
    else if client == "" then Err(ClientRequired)
    else Ok(x.derive(master, client))
  }

  function VerifyKey(x: Crypto, master: string, client: string, kd: KeyDerivation): Result<string, CascadeError> {
    if kd == Global then Ok(master) else TenantSecret(x, master, client)
  }

  function NodeMessage(client: string, doc: string, index: nat, prev: string, text: string): string {
    client + SEPARATOR + doc + SEPARATOR + Decimal(index) + SEPARATOR + prev + SEPARATOR + text
  }

  function NodeHash(x: Crypto, key: string, client: string, doc: string): (nat, string, string) -> string {
    (index: nat, prev: string, text: string) => x.mac(key, NodeMessage(client, doc, index, prev, text))
  }

  /** The message tells the client, the document, the index, the hash before and the text: changing one changes it. */
  lemma MessagesTell(client: string, doc: string, index: nat, prev: string, text: string)
    ensures forall other :: NodeMessage(other, doc, index, prev, text) == NodeMessage(client, doc, index, prev, text) <==> other == client
    ensures forall other :: NodeMessage(client, other, index, prev, text) == NodeMessage(client, doc, index, prev, text) <==> other == doc
    ensures forall other :: NodeMessage(client, doc, other, prev, text) == NodeMessage(client, doc, index, prev, text) <==> other == index
    ensures forall other :: NodeMessage(client, doc, index, other, text) == NodeMessage(client, doc, index, prev, text) <==> other == prev
    ensures forall other :: NodeMessage(client, doc, index, prev, other) == NodeMessage(client, doc, index, prev, text) <==> other == text
  {
    MessageParts(client, doc, index, prev, text);
    forall other: string
      ensures NodeMessage(other, doc, index, prev, text) == NodeMessage(client, doc, index, prev, text) <==> other == client
      ensures NodeMessage(client, other, index, prev, text) == NodeMessage(client, doc, index, prev, text) <==> other == doc
      ensures NodeMessage(client, doc, index, other, text) == NodeMessage(client, doc, index, prev, text) <==> other == prev
      ensures NodeMessage(client, doc, index, prev, other) == NodeMessage(client, doc, index, prev, text) <==> other == text
    {
      MessageParts(other, doc, index, prev, text);
      MessageParts(client, other, index, prev, text);
      MessageParts(client, doc, index, other, text);
      MessageParts(client, doc, index, prev, other);
      hide NodeMessage;
      var c, d, i, p := client + SEPARATOR, doc + SEPARATOR, Decimal(index) + SEPARATOR, prev + SEPARATOR;
      MiddleTells("", client, other, SEPARATOR + d + i + p + text);
      MiddleTells(c, doc, other, SEPARATOR + i + p + text);
      MiddleTells(c + d + i, prev, other, SEPARATOR + text);
      MiddleTells(c + d + i + p, text, other, "");
    }
    forall other: nat
      ensures NodeMessage(client, doc, other, prev, text) == NodeMessage(client, doc, index, prev, text) <==> other == index
    {
      MessageParts(client, doc, other, prev, text);
      hide NodeMessage;
      MiddleTells(client + SEPARATOR + (doc + SEPARATOR), Decimal(index), Decimal(other), SEPARATOR + (prev + SEPARATOR) + text);
      DecimalTells(other, index);
    }
  }

  /** The message, cut in front of and behind each of its five parts. */
  lemma MessageParts(client: string, doc: string, index: nat, prev: string, text: string)
    ensures var m := NodeMessage(client, doc, index, prev, text);
            var c, d, i, p := client + SEPARATOR, doc + SEPARATOR, Decimal(index) + SEPARATOR, prev + SEPARATOR;
            && m == "" + client + (SEPARATOR + d + i + p + text)
            && m == c + doc + (SEPARATOR + i + p + text)
            && m == c + d + Decimal(index) + (SEPARATOR + p + text)
            && m == c + d + i + prev + (SEPARATOR + text)
            && m == c + d + i + p + text + ""
  {
    var c, d, i, p := client + SEPARATOR, doc + SEPARATOR, Decimal(index) + SEPARATOR, prev + SEPARATOR;
    var m := c + (d + (i + (p + text)));
    Cuts(client, doc, Decimal(index), prev, text);
    CutOut("", client, SEPARATOR, d + (i + (p + text)), m);
    CutOut(c, doc, SEPARATOR, i + (p + text), m);
    CutOut(c + d, Decimal(index), SEPARATOR, p + text, m);
    CutOut(c + d + i, prev, SEPARATOR, text, m);
    Regroup2(SEPARATOR + d, i, p, text);
    Regroup2(SEPARATOR, i, p, text);
    assert m == c + d + i + p + text + "";
  }

  lemma Cuts(client: string, doc: string, index: string, prev: string, text: string)
    ensures client + SEPARATOR + doc + SEPARATOR + index + SEPARATOR + prev + SEPARATOR + text ==
            (client + SEPARATOR) + ((doc + SEPARATOR) + ((index + SEPARATOR) + ((prev + SEPARATOR) + text)))
  {}

  lemma CutOut(x: string, y: string, s: string, z: string, m: string)
    requires m == x + ((y + s) + z)
    ensures m == x + y + (s + z)
  {}

  lemma Regroup2(x: string, y: string, z: string, w: string)
    ensures x + (y + (z + w)) == x + y + z + w
  {}

  /** The hash in front of position `i`: that of everything before it. */
  function HashBefore(h: (nat, string, string) -> string, ss: seq<string>, i: nat): string
    requires i <= |ss|
  {
    if i == 0 then GENESIS_HASH else h(i - 1, HashBefore(h, ss, i - 1), ss[i - 1])
  }

  ghost predicate IsChainOf(nodes: seq<Node>, h: (nat, string, string) -> string, ss: seq<string>) {
    && |nodes| == |ss|
    && forall i :: 0 <= i < |ss| ==> nodes[i] == Node(i, HashBefore(h, ss, i + 1), ss[i])
  }

  function NonEmpty(ss: seq<string>): seq<string> {
    if ss == [] then [] else NonEmpty(ss[..|ss| - 1]) + (if ss[|ss| - 1] != "" then [ss[|ss| - 1]] else [])
  }

  lemma {:induction false} HashBeforePrefix(h: (nat, string, string) -> string, ss: seq<string>, x: string, i: nat)
    requires i <= |ss|
    ensures HashBefore(h, ss + [x], i) == HashBefore(h, ss, i)
  {
    if i > 0 {
      HashBeforePrefix(h, ss, x, i - 1);
    }
  }

  /** `sentences` is the text split into normalized sentences, some of which may be empty. */
  method BuildCascadeChain(x: Crypto, secret: string, client: string, doc: string, sentences: seq<string>)
    returns (r: Result<Chain, CascadeError>)
    ensures r.Err? <==> |secret| < 8 || client == ""
    ensures r.Err? ==> r.error == if |secret| < 8 then SecretTooShort else ClientRequired
    ensures r.Ok? ==>
              r.value.keyDerivation == HkdfV1
              && IsChainOf(r.value.nodes, NodeHash(x, x.derive(secret, client), client, doc), NonEmpty(sentences))
  {
    var key := TenantSecret(x, secret, client);
    if key.Err? {
      return Err(key.error);
    }
    ghost var h := NodeHash(x, key.value, client, doc);
    ghost var done: seq<string> := [];
    var nodes: seq<Node> := [];
    var prev := GENESIS_HASH;
    for i := 0 to |sentences|
      invariant done == NonEmpty(sentences[..i])
      invariant IsChainOf(nodes, h, done) && prev == HashBefore(h, done, |done|)
    {
      assert sentences[..i + 1][..i] == sentences[..i];
      var normalized := sentences[i];
      if |normalized| == 0 {
        continue;
      }
      var hash := x.mac(key.value, NodeMessage(client, doc, |nodes|, prev, normalized));
      forall k | 0 <= k <= |done|
        ensures HashBefore(h, done + [normalized], k) == HashBefore(h, done, k)
      {
        HashBeforePrefix(h, done, normalized, k);
      }
      nodes := nodes + [Node(|nodes|, hash, normalized)];
      prev := hash;
      done := done + [normalized];
    }
    assert sentences[..|sentences|] == sentences;
    r := Ok(Chain(HkdfV1, nodes));
  }

  // ---- The greedy assignment

  type Matching = seq<Option<nat>>

  ghost predicate Within(target: string, candidate: string) {
    RelativeDistance(target, candidate) <= MODIFICATION_TOLERANCE
  }

  /** At most one edit in five characters of the longer sentence. */
  lemma WithinMeans(target: string, candidate: string)
    ensures Within(target, candidate) <==> 5 * Dist(target, candidate) <= Max(|target|, |candidate|)
  {
    hide Dist;
    var longest := Max(|target|, |candidate|);
    if longest == 0 {
      DistBounds(target, candidate);
    } else {
      FifthOf(Dist(target, candidate), longest);
    }
  }

  lemma FifthOf(d: nat, n: nat)
    requires n > 0
    ensures d as real / n as real <= 0.2 <==> 5 * d <= n
  {
    var q, w := d as real / n as real, n as real;
    assert q * w == d as real;
    Sign(q - 0.2, w);
    assert (q - 0.2) * w == q * w - 0.2 * w;
    assert d as real - 0.2 * w <= 0.0 <==> 5 * d <= n;
  }

  ghost predicate Taken(m: Matching, c: nat) {
    exists s :: 0 <= s < |m| && m[s] == Some(c)
  }

  /**
    * The choice for one stored sentence: the first free identical candidate, else the first of the free
    * candidates within tolerance that are nearest, else none.
    */
  ghost predicate Picks(target: string, cands: seq<string>, before: Matching, r: Option<nat>) {
    match r
    case Some(k) =>
      && k < |cands| && !Taken(before, k) && Within(target, cands[k])
      && (forall c :: 0 <= c < |cands| && !Taken(before, c) && cands[c] == target ==> cands[k] == target && k <= c)
      && (forall c :: 0 <= c < |cands| && !Taken(before, c) ==>
            RelativeDistance(target, cands[k]) <= RelativeDistance(target, cands[c]))
      && (forall c :: 0 <= c < k && !Taken(before, c) ==>
            RelativeDistance(target, cands[k]) < RelativeDistance(target, cands[c]))
    case None => forall c :: 0 <= c < |cands| && !Taken(before, c) ==> !Within(target, cands[c])
  }

  ghost predicate IsGreedy(stored: seq<string>, cands: seq<string>, m: Matching) {
    && |m| == |stored|
    && forall s :: 0 <= s < |stored| ==> Picks(stored[s], cands, m[..s], m[s])
  }

  lemma PicksUnique(target: string, cands: seq<string>, before: Matching, r: Option<nat>, r': Option<nat>)
    requires Picks(target, cands, before, r) && Picks(target, cands, before, r')
    ensures r == r'
  {
    if r.Some? && r'.Some? {
      assert r.value <= r'.value && r'.value <= r.value;
    }
  }

  /** The assignment is fully determined. */
  lemma {:induction false} GreedyUnique(stored: seq<string>, cands: seq<string>, m: Matching, m': Matching, n: nat)
    requires IsGreedy(stored, cands, m) && IsGreedy(stored, cands, m') && n <= |stored|
    ensures m[..n] == m'[..n]
  {
    hide Picks;
    if n > 0 {
      GreedyUnique(stored, cands, m, m', n - 1);
      PicksUnique(stored[n - 1], cands, m[..n - 1], m[n - 1], m'[n - 1]);
      assert m[..n] == m[..n - 1] + [m[n - 1]] && m'[..n] == m'[..n - 1] + [m'[n - 1]];
    }
  }

  /** A matching uses no candidate twice and pairs only sentences within tolerance. */
  ghost predicate IsMatching(stored: seq<string>, cands: seq<string>, m: Matching) {
    && |m| == |stored|
    && (forall s :: 0 <= s < |m| && m[s].Some? ==> m[s].value < |cands| && Within(stored[s], cands[m[s].value]))
    && (forall s, s' :: 0 <= s < s' < |m| && m[s].Some? && m[s'].Some? ==> m[s].value != m[s'].value)
  }

  lemma TakenBefore(m: Matching, n: nat, c: nat)
    requires n <= |m|
    ensures Taken(m[..n], c) ==> Taken(m, c)
    ensures n < |m| ==> (Taken(m[..n + 1], c) <==> Taken(m[..n], c) || m[n] == Some(c))
  {
    if Taken(m[..n], c) {
      var s :| 0 <= s < n && m[..n][s] == Some(c);
      assert m[s] == Some(c);
      if n < |m| {
        assert m[..n + 1][s] == Some(c);
      }
    }
    if n < |m| {
      assert m[..n + 1] == m[..n] + [m[n]];
      if m[n] == Some(c) {
        assert m[..n + 1][n] == Some(c);
      }
      if Taken(m[..n + 1], c) {
        var s :| 0 <= s < n + 1 && m[..n + 1][s] == Some(c);
        assert s < n ==> m[..n][s] == Some(c);
      }
    }
  }

  lemma GreedyIsMatching(stored: seq<string>, cands: seq<string>, m: Matching)
    requires IsGreedy(stored, cands, m)
    ensures IsMatching(stored, cands, m)
    ensures forall s, c :: 0 <= s < |m| && 0 <= c < |cands| && m[s].None? && !Taken(m, c) ==> !Within(stored[s], cands[c])
  {
    forall s | 0 <= s < |m| && m[s].Some?
      ensures m[s].value < |cands| && Within(stored[s], cands[m[s].value])
    {
      assert Picks(stored[s], cands, m[..s], m[s]);
    }
    forall s, s' | 0 <= s < s' < |m| && m[s].Some? && m[s'].Some?
      ensures m[s].value != m[s'].value
    {
      assert Picks(stored[s'], cands, m[..s'], m[s']);
      assert m[..s'][s] == m[s];
    }
    forall s, c | 0 <= s < |m| && 0 <= c < |cands| && m[s].None? && !Taken(m, c)
      ensures !Within(stored[s], cands[c])
    {
      assert Picks(stored[s], cands, m[..s], m[s]);
      TakenBefore(m, s, c);
    }
  }

  // ---- Counting

  function Deleted(m: Matching): seq<nat> {
    if m == [] then [] else Deleted(m[..|m| - 1]) + (if m[|m| - 1].None? then [|m| - 1] else [])
  }

  predicate IsModified(stored: seq<string>, cands: seq<string>, m: Matching, s: nat)
    requires s < |m| == |stored| && (m[s].Some? ==> m[s].value < |cands|)
  {
    m[s].Some? && stored[s] != cands[m[s].value]
  }

  predicate InRange(m: Matching, n: nat) {
    forall s :: 0 <= s < |m| && m[s].Some? ==> m[s].value < n
  }

  function Modified(stored: seq<string>, cands: seq<string>, m: Matching): seq<nat>
    requires |m| == |stored| && InRange(m, |cands|)
  {
    if m == [] then []
    else
      var n := |m| - 1;
      Modified(stored[..n], cands, m[..n]) + (if IsModified(stored, cands, m, n) then [n] else [])
  }

  function Identical(stored: seq<string>, cands: seq<string>, m: Matching): nat
    requires |m| == |stored| && InRange(m, |cands|)
  {
    if m == [] then 0
    else
      var n := |m| - 1;
      Identical(stored[..n], cands, m[..n]) + (if m[n].Some? && stored[n] == cands[m[n].value] then 1 else 0)
  }

  lemma {:induction false} DeletedAre(m: Matching)
    ensures forall s :: s in Deleted(m) <==> 0 <= s < |m| && m[s].None?
  {
    if m != [] {
      DeletedAre(m[..|m| - 1]);
    }
  }

  lemma {:induction false} ModifiedAre(stored: seq<string>, cands: seq<string>, m: Matching)
    requires |m| == |stored| && InRange(m, |cands|)
    ensures forall s :: s in Modified(stored, cands, m) <==> 0 <= s < |m| && IsModified(stored, cands, m, s)
  {
    if m != [] {
      ModifiedAre(stored[..|m| - 1], cands, m[..|m| - 1]);
    }
  }

  /** Every stored sentence is deleted, modified or identical. */
  lemma {:induction false} ClassesPartition(stored: seq<string>, cands: seq<string>, m: Matching)
    requires |m| == |stored| && InRange(m, |cands|)
    ensures |Deleted(m)| + |Modified(stored, cands, m)| + Identical(stored, cands, m) == |stored|
  {
    if m != [] {
      ClassesPartition(stored[..|m| - 1], cands, m[..|m| - 1]);
    }
  }

  /** The number of matched pairs. */
  function Pairs(m: Matching): nat {
    if m == [] then 0 else Pairs(m[..|m| - 1]) + (if m[|m| - 1].Some? then 1 else 0)
  }

  /** The candidates that the stored sentences in `indices` are matched with. */
  ghost function Image(m: Matching, indices: set<nat>): set<nat> {
    set s: nat | s in indices && s < |m| && m[s].Some? :: m[s].value
  }

  ghost function MatchedSet(m: Matching): set<nat> {
    set s: nat | s < |m| && m[s].Some?
  }

  /** The candidates in use. */
  ghost function Values(m: Matching): set<nat> {
    Image(m, MatchedSet(m))
  }

  lemma ValuesAreTaken(m: Matching, c: nat)
    ensures c in Values(m) <==> Taken(m, c)
  {
    if Taken(m, c) {
      var s :| 0 <= s < |m| && m[s] == Some(c);
      assert s in MatchedSet(m);
    }
  }

  lemma ValuesNext(m: Matching)
    requires m != []
    ensures Values(m) == Values(m[..|m| - 1]) + (if m[|m| - 1].Some? then {m[|m| - 1].value} else {})
  {
    var n := |m| - 1;
    assert m[..n + 1] == m;
    forall c: nat
      ensures c in Values(m) <==> c in Values(m[..n]) || m[n] == Some(c)
    {
      ValuesAreTaken(m, c);
      ValuesAreTaken(m[..n], c);
      TakenBefore(m, n, c);
    }
  }

  /** As many candidates are used as stored sentences are matched. */
  lemma {:induction false} UsedCount(m: Matching)
    requires forall s, s' :: 0 <= s < s' < |m| && m[s].Some? && m[s'].Some? ==> m[s].value != m[s'].value
    ensures |Values(m)| == Pairs(m)
  {
    hide Values;
    if m == [] {
      NoValues();
    } else {
      var n := |m| - 1;
      UsedCount(m[..n]);
      ValuesNext(m);
      if m[n].Some? {
        var c := m[n].value;
        ValuesAreTaken(m[..n], c);
        if Taken(m[..n], c) {
          NotTakenTwice(m, n, c);
        }
      }
    }
  }

  lemma NoValues()
    ensures Values([]) == {}
  {}

  lemma NotTakenTwice(m: Matching, n: nat, c: nat)
    requires forall s, s' :: 0 <= s < s' < |m| && m[s].Some? && m[s'].Some? ==> m[s].value != m[s'].value
    requires n < |m| && m[n] == Some(c)
    ensures !Taken(m[..n], c)
  {}

  lemma {:induction false} PairsAndDeleted(m: Matching)
    ensures Pairs(m) + |Deleted(m)| == |m| && |MatchedSet(m)| == Pairs(m)
  {
    if m == [] {
      assert MatchedSet(m) == {};
    } else {
      var n := |m| - 1;
      PairsAndDeleted(m[..n]);
      assert MatchedSet(m) == MatchedSet(m[..n]) + (if m[n].Some? then {n} else {});
    }
  }

  /** Candidates left unused. */
  function Unused(used: seq<bool>): nat {
    if used == [] then 0 else Unused(used[..|used| - 1]) + (if used[|used| - 1] then 0 else 1)
  }

  lemma {:induction false} UnusedCount(used: seq<bool>, taken: set<nat>)
    requires forall c :: c in taken <==> 0 <= c < |used| && used[c]
    ensures Unused(used) + |taken| == |used|
  {
    if used == [] {
      assert taken == {};
    } else {
      var n := |used| - 1;
      UnusedCount(used[..n], taken - {n});
      if used[n] {
        assert taken == (taken - {n}) + {n};
      } else {
        assert taken - {n} == taken;
      }
    }
  }

  // ---- How good the greedy choice is

  /** Any matching within tolerance has at most twice as many pairs as the greedy one. */
  lemma GreedyAtLeastHalf(stored: seq<string>, cands: seq<string>, m: Matching, other: Matching)
    requires IsGreedy(stored, cands, m) && IsMatching(stored, cands, other)
    ensures Pairs(other) <= 2 * Pairs(m)
  {
    hide IsGreedy;
    hide Within;
    GreedyIsMatching(stored, cands, m);
    UsedCount(m);
    UsedCount(other);
    PairsAndDeleted(m);
    var viaStored := Image(other, MatchedSet(m));
    ImageCount(other, MatchedSet(m));
    forall c | c in Values(other)
      ensures c in viaStored + Values(m)
    {
      ValuesAreTaken(other, c);
      ValuesAreTaken(m, c);
      var s :| 0 <= s < |other| && other[s] == Some(c);
      if s !in MatchedSet(m) {
        assert Within(stored[s], cands[c]);
      }
    }
    UnionCount(Values(other), viaStored, Values(m));
  }

  lemma UnionCount(a: set<nat>, b: set<nat>, c: set<nat>)
    requires a <= b + c
    ensures |a| <= |b| + |c|
  {
    SubsetCount(a, b + c);
    assert |b + c| <= |b| + |c| by {
      assert b + c == b + (c - b);
      SubsetCount(c - b, c);
    }
  }

  lemma {:induction false} SubsetCount(a: set<nat>, b: set<nat>)
    requires a <= b
    ensures |a| <= |b|
  {
    if a != {} {
      var x :| x in a;
      SubsetCount(a - {x}, b - {x});
    }
  }

  lemma {:induction false} ImageCount(m: Matching, indices: set<nat>)
    ensures |Image(m, indices)| <= |indices|
  {
    if indices == {} {
      assert Image(m, indices) == {};
    } else {
      var x :| x in indices;
      ImageCount(m, indices - {x});
      ImageNext(m, indices, x);
    }
  }

  lemma ImageNext(m: Matching, indices: set<nat>, x: nat)
    requires x in indices
    ensures Image(m, indices) == Image(m, indices - {x}) + (if x < |m| && m[x].Some? then {m[x].value} else {})
  {
    forall c | c in Image(m, indices)
      ensures c in Image(m, indices - {x}) || (x < |m| && m[x] == Some(c))
    {
      var s: nat :| s in indices && s < |m| && m[s] == Some(c);
      assert s != x ==> s in indices - {x};
    }
  }

  // ---- The break point

  function BreakFrom(h: (nat, string, string) -> string, nodes: seq<Node>, cands: seq<string>, i: nat, prev: string): Option<nat>
    decreases |nodes| - i
  {
    if i >= |nodes| then None
    else if i >= |cands| then Some(i)
    else
      var hash := h(i, prev, cands[i]);
      if hash != nodes[i].hash then Some(i) else BreakFrom(h, nodes, cands, i + 1, hash)
  }

  /** The first place where the candidate ends or says something else; none if it starts with all of `ss`. */
  ghost predicate IsLeastDifference(ss: seq<string>, cands: seq<string>, r: Option<nat>) {
    match r
    case Some(i) => i < |ss| && i <= |cands| && ss[..i] == cands[..i] && (i < |cands| ==> cands[i] != ss[i])
    case None => ss <= cands
  }

  /** The first sentences that differ, at position `k`, have the same hash there. */
  ghost predicate CollidesAt(h: (nat, string, string) -> string, ss: seq<string>, cands: seq<string>, k: nat) {
    && k < |ss| && k < |cands| && ss[..k] == cands[..k] && ss[k] != cands[k]
    && h(k, HashBefore(h, ss, k), ss[k]) == h(k, HashBefore(h, ss, k), cands[k])
  }

  lemma {:induction false} BreakNotBefore(h: (nat, string, string) -> string, nodes: seq<Node>, cands: seq<string>, i: nat, prev: string)
    ensures var r := BreakFrom(h, nodes, cands, i, prev); r.Some? ==> r.value >= i
    decreases |nodes| - i
  {
    if i < |nodes| && i < |cands| {
      BreakNotBefore(h, nodes, cands, i + 1, h(i, prev, cands[i]));
    }
  }

  /** On an honest chain the break is the first difference if and only if the sentences right there do not collide. */
  lemma {:induction false} BreakIsLeastDifference(h: (nat, string, string) -> string, nodes: seq<Node>,
                                                  ss: seq<string>, cands: seq<string>, i: nat)
    requires IsChainOf(nodes, h, ss) && i <= |ss| && i <= |cands| && ss[..i] == cands[..i]
    ensures var r := BreakFrom(h, nodes, cands, i, HashBefore(h, ss, i));
            IsLeastDifference(ss, cands, r) <==> !exists k :: CollidesAt(h, ss, cands, k)
    decreases |ss| - i
  {
    forall k: nat | CollidesAt(h, ss, cands, k)
      ensures k >= i
      ensures forall r :: IsLeastDifference(ss, cands, r) ==> r == Some(k)
    {
      forall r | IsLeastDifference(ss, cands, r)
        ensures r == Some(k)
      {
        LeastDifferenceUnique(ss, cands, r, Some(k));
      }
    }
    if i < |ss| && i < |cands| {
      if cands[i] == ss[i] {
        assert ss[..i + 1] == ss[..i] + [ss[i]] && cands[..i + 1] == cands[..i] + [cands[i]];
        BreakIsLeastDifference(h, nodes, ss, cands, i + 1);
      } else {
        assert IsLeastDifference(ss, cands, Some(i));
        if h(i, HashBefore(h, ss, i), cands[i]) == nodes[i].hash {
          assert CollidesAt(h, ss, cands, i);
          BreakNotBefore(h, nodes, cands, i + 1, nodes[i].hash);
        }
      }
    }
  }

  /** Such a collision is one of the keyed hash, on the two messages of that position. */
  lemma CollisionIsOfMac(x: Crypto, key: string, client: string, doc: string, ss: seq<string>, cands: seq<string>, k: nat)
    requires CollidesAt(NodeHash(x, key, client, doc), ss, cands, k)
    ensures var prev := HashBefore(NodeHash(x, key, client, doc), ss, k);
            var p, q := NodeMessage(client, doc, k, prev, ss[k]), NodeMessage(client, doc, k, prev, cands[k]);
            p != q && x.mac(key, p) == x.mac(key, q)
  {
    var prev := HashBefore(NodeHash(x, key, client, doc), ss, k);
    var p := NodeMessage(client, doc, k, prev, ss[k]);
    var q := NodeMessage(client, doc, k, prev, cands[k]);
    var front := client + SEPARATOR + doc + SEPARATOR + Decimal(k) + SEPARATOR + prev + SEPARATOR;
    assert p[|front|..] == ss[k] && q[|front|..] == cands[k];
  }

  // ---- The code

  datatype VerifyResult = VerifyResult(integrityScore: real, brokenAtIndex: Option<nat>, deletedIndices: seq<nat>,
                                       modifiedIndices: seq<nat>, reorderedDetected: bool, insertedCount: nat,
                                       totalStored: nat, totalCandidate: nat)

  function Texts(nodes: seq<Node>): (ss: seq<string>)
    ensures |ss| == |nodes| && forall i :: 0 <= i < |nodes| ==> ss[i] == nodes[i].normalized
  {
    seq(|nodes|, i requires 0 <= i < |nodes| => nodes[i].normalized)
  }

  ghost predicate Reordered(m: Matching) {
    exists s, s' :: 0 <= s < s' < |m| && m[s].Some? && m[s'].Some? && m[s'].value < m[s].value
  }

  /** What the result says about the greedy matching `m`. */
  ghost predicate Reports(r: VerifyResult, h: (nat, string, string) -> string, nodes: seq<Node>, cands: seq<string>, m: Matching)
    requires |m| == |nodes| && InRange(m, |cands|)
  {
    && r.deletedIndices == Deleted(m)
    && r.modifiedIndices == Modified(Texts(nodes), cands, m)
    && r.integrityScore == (if nodes == [] then 1.0 else Identical(Texts(nodes), cands, m) as real / |nodes| as real)
    && r.brokenAtIndex == BreakFrom(h, nodes, cands, 0, GENESIS_HASH)
    && (r.reorderedDetected <==> Reordered(m))
    && r.insertedCount == |cands| - Pairs(m)
    && r.totalStored == |nodes| && r.totalCandidate == |cands|
  }

  method PickCandidate(target: string, cands: seq<string>, used: array<bool>, ghost before: Matching)
    returns (r: Option<nat>, distance: real)
    requires used.Length == |cands| && forall c :: 0 <= c < |cands| ==> (used[c] <==> Taken(before, c))
    ensures Picks(target, cands, before, r)
    ensures r.Some? ==> distance == RelativeDistance(target, cands[r.value])
  {
    hide RelativeDistance;
    hide Taken;
    for c := 0 to |cands|
      invariant forall c' :: 0 <= c' < c && !used[c'] ==> cands[c'] != target
    {
      if used[c] {
        continue;
      }
      if cands[c] == target {
        IdenticalIsPicked(target, cands, before, c);
        return Some(c), 0.0;
      }
    }
    r, distance := None, 1.0;
    for c := 0 to |cands|
      invariant r.None? ==> forall c' :: 0 <= c' < c && !Taken(before, c') ==> !Within(target, cands[c'])
      invariant r.Some? ==> r.value < c && !Taken(before, r.value) && Within(target, cands[r.value])
      invariant r.Some? ==> distance == RelativeDistance(target, cands[r.value])
      invariant r.Some? ==> forall c' :: 0 <= c' < c && !Taken(before, c') ==>
                              distance <= RelativeDistance(target, cands[c'])
      invariant r.Some? ==> forall c' :: 0 <= c' < r.value && !Taken(before, c') ==>
                              distance < RelativeDistance(target, cands[c'])
    {
      if used[c] {
        continue;
      }
      var d := ComputeRelativeDistance(target, cands[c]);
      if d <= MODIFICATION_TOLERANCE && (r.None? || d < distance) {
        r, distance := Some(c), d;
      }
    }
  }

  method ComputeRelativeDistance(a: string, b: string) returns (d: real)
    ensures d == RelativeDistance(a, b)
  {
    var longest := Max(|a|, |b|);
    if longest == 0 {
      return 0.0;
    }
    var dist := Levenshtein(a, b);
    d := dist as real / longest as real;
  }

  lemma IdenticalIsPicked(target: string, cands: seq<string>, before: Matching, k: nat)
    requires k < |cands| && !Taken(before, k) && cands[k] == target
    requires forall c :: 0 <= c < k && !Taken(before, c) ==> cands[c] != target
    ensures Picks(target, cands, before, Some(k)) && RelativeDistance(target, cands[k]) == 0.0
  {
    hide RelativeDistance;
    RelativeDistanceRange(target, target);
    forall c | 0 <= c < |cands|
      ensures RelativeDistance(target, cands[c]) >= 0.0
      ensures cands[c] != target ==> RelativeDistance(target, cands[c]) > 0.0
    {
      RelativeDistanceRange(target, cands[c]);
    }
  }

  lemma NothingTaken()
    ensures forall c: nat :: !Taken([], c)
  {}

  lemma MatchingNext(m: Matching, pick: Option<nat>)
    ensures forall c: nat :: Taken(m + [pick], c) <==> Taken(m, c) || pick == Some(c)
    ensures forall k :: 0 <= k <= |m| ==> (m + [pick])[..k] == m[..k]
    ensures m[..|m|] == m
  {
    forall c: nat
      ensures Taken(m + [pick], c) <==> Taken(m, c) || pick == Some(c)
    {
      TakenBefore(m + [pick], |m|, c);
      assert (m + [pick])[..|m|] == m && (m + [pick])[..|m| + 1] == m + [pick];
    }
  }

  method AssignGreedily(nodes: seq<Node>, cands: seq<string>)
    returns (matched: array<Option<nat>>, distance: array<real>, used: array<bool>)
    ensures IsGreedy(Texts(nodes), cands, matched[..])
    ensures distance.Length == matched.Length == |nodes|
    ensures forall s :: 0 <= s < |nodes| && matched[s].Some? ==>
              matched[s].value < |cands| && distance[s] == RelativeDistance(nodes[s].normalized, cands[matched[s].value])
    ensures used.Length == |cands| && forall c :: 0 <= c < |cands| ==> (used[c] <==> Taken(matched[..], c))
  {
    hide RelativeDistance, Picks, Taken;
    used := new bool[|cands|](_ => false);
    matched := new Option<nat>[|nodes|](_ => None);
    distance := new real[|nodes|](_ => 1.0);
    ghost var m: Matching := [];
    NothingTaken();
    for s := 0 to |nodes|
      invariant fresh(matched) && fresh(distance) && fresh(used)
      invariant matched[..s] == m && forall k :: s <= k < |nodes| ==> matched[k].None?
      invariant forall k :: 0 <= k < s ==> Picks(nodes[k].normalized, cands, m[..k], m[k])
      invariant forall k :: 0 <= k < s && m[k].Some? ==>
                  m[k].value < |cands| && distance[k] == RelativeDistance(nodes[k].normalized, cands[m[k].value])
      invariant forall c :: 0 <= c < |cands| ==> (used[c] <==> Taken(m, c))
    {
      var pick, d := PickCandidate(nodes[s].normalized, cands, used, m);
      PickedFits(nodes[s].normalized, cands, m, pick);
      if pick.Some? {
        used[pick.value] := true;
        matched[s] := pick;
        distance[s] := d;
      }
      MatchingNext(m, pick);
      m := m + [pick];
      assert matched[..s + 1] == m;
    }
    assert matched[..|nodes|] == matched[..];
  }

  lemma PickedFits(target: string, cands: seq<string>, before: Matching, r: Option<nat>)
    requires Picks(target, cands, before, r)
    ensures r.Some? ==> r.value < |cands|
  {}

  method Report(nodes: seq<Node>, cands: seq<string>, matched: array<Option<nat>>, distance: array<real>)
    returns (deleted: seq<nat>, modified: seq<nat>, identical: nat)
    requires matched.Length == distance.Length == |nodes| && InRange(matched[..], |cands|)
    requires forall s :: 0 <= s < |nodes| && matched[s].Some? ==>
               distance[s] == RelativeDistance(nodes[s].normalized, cands[matched[s].value])
    ensures deleted == Deleted(matched[..])
    ensures modified == Modified(Texts(nodes), cands, matched[..])
    ensures identical == Identical(Texts(nodes), cands, matched[..])
  {
    hide RelativeDistance;
    deleted, modified, identical := [], [], 0;
    var texts := Texts(nodes);
    for s := 0 to |nodes|
      invariant InRange(matched[..s], |cands|)
      invariant deleted == Deleted(matched[..s])
      invariant modified == Modified(texts[..s], cands, matched[..s])
      invariant identical == Identical(texts[..s], cands, matched[..s])
    {
      ghost var m := matched[..s + 1];
      assert m[..s] == matched[..s] && texts[..s + 1][..s] == texts[..s] && m[s] == matched[..][s];
      if matched[s].None? {
        deleted := deleted + [s];
      } else {
        RelativeDistanceRange(texts[s], cands[matched[s].value]);
        if distance[s] > 0.0 {
          modified := modified + [s];
        } else {
          identical := identical + 1;
        }
      }
    }
    assert matched[..|nodes|] == matched[..] && texts[..|nodes|] == texts;
  }

  method FindBreak(h: (nat, string, string) -> string, nodes: seq<Node>, cands: seq<string>) returns (r: Option<nat>)
    ensures r == BreakFrom(h, nodes, cands, 0, GENESIS_HASH)
  {
    var prev := GENESIS_HASH;
    for i := 0 to |nodes|
      invariant BreakFrom(h, nodes, cands, 0, GENESIS_HASH) == BreakFrom(h, nodes, cands, i, prev)
    {
      if i >= |cands| {
        return Some(i);
      }
      var hash := h(i, prev, cands[i]);
      if hash != nodes[i].hash {
        return Some(i);
      }
      prev := hash;
    }
    r := None;
  }

  method DetectReorder(m: seq<Option<nat>>) returns (reordered: bool)
    ensures reordered <==> Reordered(m)
  {
    var lastSeen: int := -1;
    ghost var last: nat := 0;
    for s := 0 to |m|
      invariant lastSeen >= 0 ==> last < s && m[last] == Some(lastSeen)
      invariant forall k :: 0 <= k < s && m[k].Some? ==> m[k].value <= lastSeen
      invariant forall k, k' :: 0 <= k < k' < s && m[k].Some? && m[k'].Some? ==> m[k].value <= m[k'].value
    {
      if m[s].None? {
        continue;
      }
      var ci := m[s].value;
      if ci < lastSeen {
        assert m[last].Some? && m[s].Some? && m[s].value < m[last].value;
        return true;
      }
      lastSeen := ci;
      last := s;
    }
    reordered := false;
  }

  method CountUnused(used: array<bool>) returns (n: nat)
    ensures n == Unused(used[..])
  {
    n := 0;
    for i := 0 to used.Length
      invariant n == Unused(used[..i])
    {
      assert used[..i + 1][..i] == used[..i];
      if !used[i] {
        n := n + 1;
      }
    }
    assert used[..used.Length] == used[..];
  }

  /** `candidates` is the suspect text split into normalized sentences, some of which may be empty. */
  method VerifyCascadeChain(x: Crypto, secret: string, client: string, doc: string, chain: Chain, candidates: seq<string>)
    returns (r: Result<VerifyResult, CascadeError>, ghost m: Matching)
    ensures r.Err? <==> chain.keyDerivation == HkdfV1 && (|secret| < 8 || client == "")
    ensures r.Err? ==> r.error == if |secret| < 8 then SecretTooShort else ClientRequired
    ensures r.Ok? ==>
              var key := if chain.keyDerivation == Global then secret else x.derive(secret, client);
              && IsGreedy(Texts(chain.nodes), NonEmpty(candidates), m) && InRange(m, |NonEmpty(candidates)|)
              && Reports(r.value, NodeHash(x, key, client, doc), chain.nodes, NonEmpty(candidates), m)
  {
    hide Picks;
    m := [];
    var key := VerifyKey(x, secret, client, chain.keyDerivation);
    if key.Err? {
      return Err(key.error), m;
    }
    var h := NodeHash(x, key.value, client, doc);
    var cands := NonEmpty(candidates);
    var nodes := chain.nodes;
    if |nodes| == 0 {
      return Ok(VerifyResult(1.0, None, [], [], false, |cands|, 0, |cands|)), m;
    }
    var matched, distance, used := AssignGreedily(nodes, cands);
    m := matched[..];
    GreedyIsMatching(Texts(nodes), cands, m);
    var deleted, modified, identical := Report(nodes, cands, matched, distance);
    var broken := FindBreak(h, nodes, cands);
    var reordered := DetectReorder(matched[..]);
    var inserted := CountUnused(used);
    UsedCount(m);
    forall c: nat
      ensures c in Values(m) <==> Taken(m, c)
    {
      ValuesAreTaken(m, c);
    }
    TakenInRange(m, |cands|);
    UnusedCount(used[..], Values(m));
    r := Ok(VerifyResult(identical as real / |nodes| as real, broken, deleted, modified, reordered, inserted, |nodes|, |cands|));
  }

  lemma TakenInRange(m: Matching, n: nat)
    requires InRange(m, n)
    ensures forall c: nat :: Taken(m, c) ==> c < n
  {}

  // ---- What a verification means

  /** Sentences are conserved: what was not inserted matches what was not deleted. */
  lemma Conservation(r: VerifyResult, h: (nat, string, string) -> string, nodes: seq<Node>, cands: seq<string>, m: Matching)
    requires |m| == |nodes| && InRange(m, |cands|) && Reports(r, h, nodes, cands, m)
    ensures r.totalCandidate - r.insertedCount == r.totalStored - |r.deletedIndices|
    ensures nodes != [] ==>
              r.integrityScore ==
              (r.totalStored - |r.deletedIndices| - |r.modifiedIndices|) as real / r.totalStored as real
  {
    hide BreakFrom;
    hide Reordered;
    hide Texts;
    hide Identical;
    hide Deleted;
    hide Modified;
    hide Pairs;
    PairsAndDeleted(m);
    ClassesPartition(Texts(nodes), cands, m);
  }

  /** No reordering reported means that the matched candidates increase along the stored sentences. */
  lemma NoReorderMeansIncreasing(stored: seq<string>, cands: seq<string>, m: Matching)
    requires IsGreedy(stored, cands, m)
    ensures !Reordered(m) <==>
            forall s, s' :: 0 <= s < s' < |m| && m[s].Some? && m[s'].Some? ==> m[s].value < m[s'].value
  {
    hide IsGreedy;
    GreedyIsMatching(stored, cands, m);
  }

  function InOrder(n: nat): (m: Matching)
    ensures |m| == n && forall i :: 0 <= i < n ==> m[i] == Some(i)
  {
    if n == 0 then [] else InOrder(n - 1) + [Some(n - 1)]
  }

  lemma TakenInOrder(n: nat, c: nat)
    ensures Taken(InOrder(n), c) <==> c < n
  {
    if c < n {
      assert InOrder(n)[c] == Some(c);
    }
  }

  /** Verified against itself, a text is assigned sentence by sentence, repetitions included. */
  lemma SelfIsGreedy(ss: seq<string>)
    ensures IsGreedy(ss, ss, InOrder(|ss|))
  {
    hide Picks;
    forall s | 0 <= s < |ss|
      ensures Picks(ss[s], ss, InOrder(|ss|)[..s], InOrder(|ss|)[s])
    {
      assert InOrder(|ss|)[..s] == InOrder(s);
      forall c: nat
        ensures Taken(InOrder(s), c) <==> c < s
      {
        TakenInOrder(s, c);
      }
      IdenticalIsPicked(ss[s], ss, InOrder(s), s);
    }
  }

  lemma {:induction false} SelfIsIdentical(ss: seq<string>, n: nat)
    requires n <= |ss|
    ensures Deleted(InOrder(n)) == [] && Modified(ss[..n], ss, InOrder(n)) == [] && Identical(ss[..n], ss, InOrder(n)) == n
  {
    if n > 0 {
      SelfIsIdentical(ss, n - 1);
      assert InOrder(n)[..n - 1] == InOrder(n - 1) && ss[..n][..n - 1] == ss[..n - 1];
    }
  }

  lemma {:induction false} SelfNeverBreaks(h: (nat, string, string) -> string, nodes: seq<Node>, ss: seq<string>, i: nat)
    requires IsChainOf(nodes, h, ss) && i <= |ss|
    ensures BreakFrom(h, nodes, ss, i, HashBefore(h, ss, i)) == None
    decreases |ss| - i
  {
    if i < |ss| {
      SelfNeverBreaks(h, nodes, ss, i + 1);
    }
  }

  lemma {:induction false} ChainTexts(nodes: seq<Node>, h: (nat, string, string) -> string, ss: seq<string>)
    requires IsChainOf(nodes, h, ss)
    ensures Texts(nodes) == ss
  {}

  /** An untouched text verifies against its own chain without any finding. */
  lemma OwnChainIsIntact(r: VerifyResult, h: (nat, string, string) -> string, nodes: seq<Node>, ss: seq<string>, m: Matching)
    requires IsChainOf(nodes, h, ss) && IsGreedy(Texts(nodes), ss, m) && InRange(m, |ss|) && Reports(r, h, nodes, ss, m)
    ensures r == VerifyResult(1.0, None, [], [], false, 0, |ss|, |ss|)
  {
    hide IsGreedy;
    hide BreakFrom;
    hide Texts;
    ChainTexts(nodes, h, ss);
    OwnMatching(nodes, h, ss, m);
    SelfIsIdentical(ss, |ss|);
    assert ss[..|ss|] == ss;
    SelfNeverBreaks(h, nodes, ss, 0);
    PairsAndDeleted(m);
    assert !Reordered(m);
    if ss != [] {
      RatioOne(|ss|);
    }
  }

  /** A text registered and then verified under the same secret, client and document is found intact. */
  method BuildThenVerify(x: Crypto, secret: string, client: string, doc: string, sentences: seq<string>)
    returns (r: Result<VerifyResult, CascadeError>)
    ensures |secret| >= 8 && client != "" ==>
              r == Ok(VerifyResult(1.0, None, [], [], false, 0, |NonEmpty(sentences)|, |NonEmpty(sentences)|))
    ensures |secret| < 8 ==> r == Err(SecretTooShort)
    ensures |secret| >= 8 && client == "" ==> r == Err(ClientRequired)
  {
    hide IsGreedy, Reports, NonEmpty;
    var chain := BuildCascadeChain(x, secret, client, doc, sentences);
    if chain.Err? {
      return Err(chain.error);
    }
    ghost var m;
    r, m := VerifyCascadeChain(x, secret, client, doc, chain.value, sentences);
    OwnChainIsIntact(r.value, NodeHash(x, x.derive(secret, client), client, doc), chain.value.nodes, NonEmpty(sentences), m);
  }

  /** What an honest chain stores, spelled out: the hash of every sentence with its place and the hash before it. */
  lemma ChainSpelledOut(x: Crypto, key: string, client: string, doc: string, nodes: seq<Node>, ss: seq<string>, k: nat)
    requires IsChainOf(nodes, NodeHash(x, key, client, doc), ss) && k < |ss|
    ensures nodes[k].index == k && nodes[k].normalized == ss[k]
    ensures var prev := if k == 0 then "00000000000000000000000000000000" else nodes[k - 1].hash;
            nodes[k].hash == x.mac(key, client + "\U{241F}" + doc + "\U{241F}" + Decimal(k) + "\U{241F}" + prev + "\U{241F}" + ss[k])
  {
    var h := NodeHash(x, key, client, doc);
    NodeIs(nodes, h, ss, k);
    var prev := if k == 0 then "00000000000000000000000000000000" else nodes[k - 1].hash;
    if k > 0 {
      NodeIs(nodes, h, ss, k - 1);
    }
    assert HashBefore(h, ss, k) == prev;
    hide HashBefore;
    assert h(k, prev, ss[k]) == x.mac(key, NodeMessage(client, doc, k, prev, ss[k]));
  }

  lemma NodeIs(nodes: seq<Node>, h: (nat, string, string) -> string, ss: seq<string>, k: nat)
    requires IsChainOf(nodes, h, ss) && k < |ss|
    ensures nodes[k] == Node(k, HashBefore(h, ss, k + 1), ss[k])
    ensures HashBefore(h, ss, k + 1) == h(k, HashBefore(h, ss, k), ss[k]) && HashBefore(h, ss, 0) == GENESIS_HASH
  {}

  /**
    * Verified as the text of another client or document, or under another key, a chain breaks at its first sentence if
    * and only if the keyed hash tells the two first messages apart; they differ if client or document does. The
    * integrity is that of the sentences alone.
    */
  lemma OtherOwnerBreaks(r: VerifyResult, x: Crypto, key: string, client: string, doc: string, key': string, client': string,
                         doc': string, nodes: seq<Node>, ss: seq<string>, m: Matching)
    requires IsChainOf(nodes, NodeHash(x, key, client, doc), ss) && ss != []
    requires IsGreedy(Texts(nodes), ss, m) && InRange(m, |ss|) && |m| == |nodes| && Reports(r, NodeHash(x, key', client', doc'), nodes, ss, m)
    ensures var rest := "\U{241F}" + "0" + "\U{241F}" + "00000000000000000000000000000000" + "\U{241F}" + ss[0];
            var p, q := client + "\U{241F}" + doc + rest, client' + "\U{241F}" + doc' + rest;
            && (r.brokenAtIndex == Some(0) <==> x.mac(key, p) != x.mac(key', q))
            && ((client == client' && doc != doc') || (client != client' && doc == doc') ==> p != q)
    ensures r.integrityScore == 1.0 && r.deletedIndices == r.modifiedIndices == [] && r.insertedCount == 0 && !r.reorderedDetected
  {
    hide IsGreedy, Texts, Identical, Modified;
    FirstMessages(client, doc, ss[0]);
    FirstMessages(client', doc', ss[0]);
    MessagesTell(client, doc, 0, GENESIS_HASH, ss[0]);
    BreakNotBefore(NodeHash(x, key', client', doc'), nodes, ss, 1, nodes[0].hash);
    NodeIs(nodes, NodeHash(x, key, client, doc), ss, 0);
    assert nodes[0].hash == x.mac(key, NodeMessage(client, doc, 0, GENESIS_HASH, ss[0]));
    hide NodeMessage, BreakFrom;
    OwnMatching(nodes, NodeHash(x, key, client, doc), ss, m);
    ChainTexts(nodes, NodeHash(x, key, client, doc), ss);
    SelfIsIdentical(ss, |ss|);
    assert ss[..|ss|] == ss;
    PairsAndDeleted(m);
    RatioOne(|ss|);
    assert !Reordered(m);
  }

  /**
    * A chain that has lost its first `d` nodes, verified against the sentences behind them, breaks at once if and only
    * if the keyed hash tells the message of position `d` from that of position 0; they differ.
    */
  lemma LostFrontBreaks(r: VerifyResult, x: Crypto, key: string, client: string, doc: string, nodes: seq<Node>,
                        ss: seq<string>, d: nat, m: Matching)
    requires IsChainOf(nodes, NodeHash(x, key, client, doc), ss) && 0 < d < |ss|
    requires |m| == |nodes| - d && InRange(m, |ss| - d) && Reports(r, NodeHash(x, key, client, doc), nodes[d..], ss[d..], m)
    ensures var owner := client + "\U{241F}" + doc + "\U{241F}";
            var p := owner + Decimal(d) + ("\U{241F}" + nodes[d - 1].hash + "\U{241F}" + ss[d]);
            var q := owner + "0" + ("\U{241F}" + "00000000000000000000000000000000" + "\U{241F}" + ss[d]);
            (r.brokenAtIndex == Some(0) <==> x.mac(key, p) != x.mac(key, q)) && p != q
  {
    var h := NodeHash(x, key, client, doc);
    NodeIs(nodes, h, ss, d);
    NodeIs(nodes, h, ss, d - 1);
    BreakNotBefore(h, nodes[d..], ss[d..], 1, nodes[d].hash);
    assert nodes[d].hash == x.mac(key, NodeMessage(client, doc, d, nodes[d - 1].hash, ss[d]));
    assert h(0, GENESIS_HASH, ss[d]) == x.mac(key, NodeMessage(client, doc, 0, GENESIS_HASH, ss[d]));
    hide IsChainOf, HashBefore, BreakFrom;
    IndexTells(client, doc, d, nodes[d - 1].hash, ss[d]);
  }

  /** A message of a later position, and that of the first one. */
  lemma IndexTells(client: string, doc: string, d: nat, prev: string, text: string)
    requires d > 0
    ensures NodeMessage(client, doc, d, prev, text) ==
            client + SEPARATOR + doc + SEPARATOR + Decimal(d) + (SEPARATOR + prev + SEPARATOR + text)
    ensures NodeMessage(client, doc, d, prev, text) !=
            client + SEPARATOR + doc + SEPARATOR + "0" + (SEPARATOR + GENESIS_HASH + SEPARATOR + text)
    ensures NodeMessage(client, doc, 0, GENESIS_HASH, text) ==
            client + SEPARATOR + doc + SEPARATOR + "0" + (SEPARATOR + GENESIS_HASH + SEPARATOR + text)
  {
    IndexParts(client, doc, d, prev, text);
    IndexParts(client, doc, 0, GENESIS_HASH, text);
    hide NodeMessage, Decimal;
    DecimalTells(d, 0);
    Behind(prev, text);
    Behind(GENESIS_HASH, text);
    FieldTells(client + SEPARATOR + doc + SEPARATOR, Decimal(d), Decimal(0), SEPARATOR[0], prev + SEPARATOR + text,
               GENESIS_HASH + SEPARATOR + text);
  }

  lemma IndexParts(client: string, doc: string, index: nat, prev: string, text: string)
    ensures NodeMessage(client, doc, index, prev, text) ==
            client + SEPARATOR + doc + SEPARATOR + Decimal(index) + (SEPARATOR + prev + SEPARATOR + text)
    ensures Decimal(0) == "0"
  {}

  lemma Behind(prev: string, text: string)
    ensures SEPARATOR + prev + SEPARATOR + text == [SEPARATOR[0]] + (prev + SEPARATOR + text)
  {}

  /** A stored hash that was replaced is found where it was, whatever the keyed hash is. */
  lemma ForgedHashIsFound(r: VerifyResult, h: (nat, string, string) -> string, nodes: seq<Node>, ss: seq<string>, k: nat,
                          forged: string, m: Matching)
    requires IsChainOf(nodes, h, ss) && k < |ss| && forged != nodes[k].hash
    requires |m| == |nodes| && InRange(m, |ss|) && Reports(r, h, nodes[k := nodes[k].(hash := forged)], ss, m)
    ensures r.brokenAtIndex == Some(k)
  {
    ForgedFrom(h, nodes, ss, k, forged, 0);
  }

  lemma {:induction false} ForgedFrom(h: (nat, string, string) -> string, nodes: seq<Node>, ss: seq<string>, k: nat, forged: string, i: nat)
    requires IsChainOf(nodes, h, ss) && i <= k < |ss| && forged != nodes[k].hash
    ensures BreakFrom(h, nodes[k := nodes[k].(hash := forged)], ss, i, HashBefore(h, ss, i)) == Some(k)
    decreases k - i
  {
    NodeIs(nodes, h, ss, i);
    if i < k {
      ForgedFrom(h, nodes, ss, k, forged, i + 1);
    }
  }

  lemma FirstMessages(client: string, doc: string, text: string)
    ensures NodeMessage(client, doc, 0, GENESIS_HASH, text) ==
            client + "\U{241F}" + doc + ("\U{241F}" + "0" + "\U{241F}" + "00000000000000000000000000000000" + "\U{241F}" + text)
  {
    assert Decimal(0) == "0";
  }

  /** The greedy matching of a text with its own chain is the identity. */
  lemma OwnMatching(nodes: seq<Node>, h: (nat, string, string) -> string, ss: seq<string>, m: Matching)
    requires IsChainOf(nodes, h, ss) && IsGreedy(Texts(nodes), ss, m) && InRange(m, |ss|)
    ensures m == InOrder(|ss|)
  {
    hide IsGreedy, Texts;
    ChainTexts(nodes, h, ss);
    SelfIsGreedy(ss);
    var own := InOrder(|ss|);
    GreedyUnique(ss, ss, m, own, |ss|);
    GreedyLength(ss, ss, m);
    assert m[..|ss|] == m && own[..|ss|] == own;
  }

  lemma GreedyLength(stored: seq<string>, cands: seq<string>, m: Matching)
    requires IsGreedy(stored, cands, m)
    ensures |m| == |stored|
  {}

  lemma RatioOne(n: nat)
    requires n > 0
    ensures n as real / n as real == 1.0
  {
    RatioRange(n as real, n as real);
  }

  /**
    * On an honest chain the reported break is the first place where the candidate ends or differs, and none is reported
    * if the candidate starts with all stored sentences, unless the keyed hash has one value for the two messages of
    * that very place; and then it is not.
    */
  lemma BreakIsLocalized(r: VerifyResult, x: Crypto, key: string, client: string, doc: string, nodes: seq<Node>,
                         ss: seq<string>, cands: seq<string>, m: Matching)
    requires IsChainOf(nodes, NodeHash(x, key, client, doc), ss)
    requires |m| == |nodes| && InRange(m, |cands|) && Reports(r, NodeHash(x, key, client, doc), nodes, cands, m)
    ensures IsLeastDifference(ss, cands, r.brokenAtIndex) <==> !exists k :: CollidesAt(NodeHash(x, key, client, doc), ss, cands, k)
  {
    BreakIsLeastDifference(NodeHash(x, key, client, doc), nodes, ss, cands, 0);
  }

  /** A least difference, where there is one, is the only one. */
  lemma LeastDifferenceUnique(ss: seq<string>, cands: seq<string>, r: Option<nat>, r': Option<nat>)
    requires IsLeastDifference(ss, cands, r) && IsLeastDifference(ss, cands, r')
    ensures r == r'
  {
    if r.Some? {
      assert forall k :: 0 <= k < r.value ==> ss[k] == ss[..r.value][k] == cands[..r.value][k];
    }
    if r'.Some? {
      assert forall k :: 0 <= k < r'.value ==> ss[k] == ss[..r'.value][k] == cands[..r'.value][k];
    }
  }
}
