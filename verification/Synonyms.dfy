/**
  * The per-client synonym shuffle: every known word becomes the member of its synonym group that the client's
  * draw selects, in the casing of the word it replaces.
  */
module Synonyms {
  import opened Bytes
  import opened Decimals
  import opened KeyedBits
  import opened Members
  import opened Messages
  import opened Prelude

  type Group = seq<string>

  /** A word in the tables: its group's number and the group. */
  datatype Entry = Entry(groupId: nat, options: Group)

  datatype Replacement = Replacement(index: nat, original: string, replacement: string, groupId: nat)

  /**
    * What the shuffle takes from its surroundings: the synonym tables, Turkish case mapping, and the keyed hash by
    * secret and message, as bytes and as the first 16 hex digits, which mark a variant.
    */
  datatype Lexicon = Lexicon(groups: seq<Group>, lower: string -> string, upper: string -> string,
                             mac: (string, string) -> Bytes, variant: (string, string) -> string)

  predicate IsLetter(c: char) {
    'a' <= c <= 'z' || 'A' <= c <= 'Z' || c in "\U{00C7}\U{011E}\U{0130}\U{0131}\U{00D6}\U{015E}\U{00DC}"
    || c in "\U{00E7}\U{011F}\U{00F6}\U{015F}\U{00FC}"
  }

  predicate Letters(s: string) { forall i :: 0 <= i < |s| ==> IsLetter(s[i]) }

  // ---- The table

  predicate Knows(lex: Lexicon, group: Group, key: string) {
    exists i :: 0 <= i < |group| && lex.lower(group[i]) == key
  }

  /** The first group, from number `g` on, with a word that lowers to `key`. */
  function LookupFrom(lex: Lexicon, key: string, g: nat): (r: Option<Entry>)
    ensures r.Some? ==> r.value.groupId < |lex.groups| && r.value.options == lex.groups[r.value.groupId]
                        && Knows(lex, r.value.options, key) && r.value.options != []
    ensures r.None? ==> forall k :: g <= k < |lex.groups| ==> !Knows(lex, lex.groups[k], key)
    decreases |lex.groups| - g
  {
    if g >= |lex.groups| then None
    else if Knows(lex, lex.groups[g], key) then Some(Entry(g, lex.groups[g]))
    else LookupFrom(lex, key, g + 1)
  }

  function Lookup(lex: Lexicon, key: string): Option<Entry> { LookupFrom(lex, key, 0) }

  /** The key of some word among the first `n` groups and the first `k` words of the next. */
  ghost predicate Listed(lex: Lexicon, key: string, n: nat, k: nat)
    requires n <= |lex.groups|
  {
    (exists g :: 0 <= g < n && Knows(lex, lex.groups[g], key))
    || (n < |lex.groups| && exists i :: 0 <= i < k && i < |lex.groups[n]| && lex.lower(lex.groups[n][i]) == key)
  }

  ghost predicate TableIs(lex: Lexicon, table: map<string, Entry>, n: nat, k: nat)
    requires n <= |lex.groups|
  {
    && (forall key :: key in table <==> Listed(lex, key, n, k))
    && (forall key :: key in table ==> Lookup(lex, key) == Some(table[key]))
  }

  /** The table is built once: the first group to list a key keeps it. */
  method BuildLookup(lex: Lexicon) returns (table: map<string, Entry>)
    ensures forall key :: Lookup(lex, key) == if key in table then Some(table[key]) else None
  {
    hide Lookup, Listed;
    table := map[];
    NothingListed(lex);
    for g := 0 to |lex.groups|
      invariant TableIs(lex, table, g, 0)
    {
      var group := lex.groups[g];
      for i := 0 to |group|
        invariant TableIs(lex, table, g, i)
      {
        var key := lex.lower(group[i]);
        ListedNext(lex, table, g, i);
        if key !in table {
          table := table[key := Entry(g, group)];
        }
      }
      GroupListed(lex, g);
    }
    AllListed(lex);
  }

  lemma NothingListed(lex: Lexicon)
    ensures forall key :: !Listed(lex, key, 0, 0)
  {}

  lemma AllListed(lex: Lexicon)
    ensures forall key :: Listed(lex, key, |lex.groups|, 0) <==> Lookup(lex, key).Some?
  {}

  lemma GroupListed(lex: Lexicon, g: nat)
    requires g < |lex.groups|
    ensures forall key :: Listed(lex, key, g, |lex.groups[g]|) <==> Listed(lex, key, g + 1, 0)
  {}

  lemma ListedNext(lex: Lexicon, table: map<string, Entry>, g: nat, i: nat)
    requires g < |lex.groups| && i < |lex.groups[g]| && TableIs(lex, table, g, i)
    ensures var word := lex.lower(lex.groups[g][i]);
            && (forall key :: Listed(lex, key, g, i + 1) <==> Listed(lex, key, g, i) || key == word)
            && (word !in table ==> Lookup(lex, word) == Some(Entry(g, lex.groups[g])))
  {
    hide Lookup;
    var word := lex.lower(lex.groups[g][i]);
    if word !in table {
      LookupIs(lex, word, g);
    }
  }

  lemma LookupIs(lex: Lexicon, key: string, g: nat)
    requires g < |lex.groups| && Knows(lex, lex.groups[g], key)
    requires forall k :: 0 <= k < g ==> !Knows(lex, lex.groups[k], key)
    ensures Lookup(lex, key) == Some(Entry(g, lex.groups[g]))
  {
    LookupFromIs(lex, key, 0, g);
  }

  lemma {:induction false} LookupFromIs(lex: Lexicon, key: string, from: nat, g: nat)
    requires from <= g < |lex.groups| && Knows(lex, lex.groups[g], key)
    requires forall k :: from <= k < g ==> !Knows(lex, lex.groups[k], key)
    ensures LookupFrom(lex, key, from) == Some(Entry(g, lex.groups[g]))
    decreases g - from
  {
    if from < g {
      LookupFromIs(lex, key, from + 1, g);
    }
  }

  // ---- Casing

  function ApplyCase(lex: Lexicon, template: string, word: string): string {
    if template == "" then word
    else if template == lex.upper(template) && |template| > 1 then lex.upper(word)
    else if [template[0]] == lex.upper([template[0]]) && [template[0]] != lex.lower([template[0]])
    then Capitalized(lex, word)
    else lex.lower(word)
  }

  function Capitalized(lex: Lexicon, word: string): string {
    if word == "" then lex.upper("") + lex.lower("") else lex.upper(word[..1]) + lex.lower(word[1..])
  }

  /** A form of a word: letters only, and recognised as the same word. */
  predicate IsForm(lex: Lexicon, form: string, word: string) {
    form != "" && Letters(form) && lex.lower(form) == lex.lower(word)
  }

  predicate CasesKeepWord(lex: Lexicon, word: string) {
    IsForm(lex, lex.upper(word), word) && IsForm(lex, lex.lower(word), word) && IsForm(lex, Capitalized(lex, word), word)
  }

  /** No two groups share a word, and casing a listed word gives a form of that word. */
  predicate LawfulLexicon(lex: Lexicon) {
    && (forall g, i :: 0 <= g < |lex.groups| && 0 <= i < |lex.groups[g]| ==> CasesKeepWord(lex, lex.groups[g][i]))
    && (forall g, i, g', i' :: 0 <= g < |lex.groups| && 0 <= i < |lex.groups[g]| && 0 <= g' < |lex.groups|
                               && 0 <= i' < |lex.groups[g']| && lex.lower(lex.groups[g][i]) == lex.lower(lex.groups[g'][i'])
                               ==> g == g')
  }

  lemma OwnGroup(lex: Lexicon, g: nat, i: nat)
    requires LawfulLexicon(lex) && g < |lex.groups| && i < |lex.groups[g]|
    ensures Lookup(lex, lex.lower(lex.groups[g][i])) == Some(Entry(g, lex.groups[g]))
  {
    LookupIs(lex, lex.lower(lex.groups[g][i]), g);
  }

  // ---- Shuffling

  /** The client asking for a shuffle. */
  datatype Client = Client(secret: string, id: string)

  /** How often each group has occurred so far. */
  type Counts = map<nat, nat>

  function CountOf(seen: Counts, g: nat): nat { if g in seen then seen[g] else 0 }

  function Counted(lex: Lexicon, word: string, seen: Counts): Counts {
    match Lookup(lex, lex.lower(word))
    case None => seen
    case Some(e) => seen[e.groupId := CountOf(seen, e.groupId) + 1]
  }

  /** The group member the client's draw selects for the next occurrence of a group. */
  function Chosen(lex: Lexicon, c: Client, e: Entry, seen: Counts): string
    requires e.options != []
  {
    e.options[Draw(lex, c, e.groupId, CountOf(seen, e.groupId)) % |e.options|]
  }

  function DrawMessage(id: string, group: nat, occurrence: nat): string {
    id + "|" + Decimal(group) + "|" + Decimal(occurrence)
  }

  function Draw(lex: Lexicon, c: Client, group: nat, occurrence: nat): nat {
    FirstWord(lex.mac(c.secret, DrawMessage(c.id, group, occurrence)))
  }

  /** What a word becomes, if anything else. */
  function Substitute(lex: Lexicon, c: Client, word: string, seen: Counts): Option<string> {
    match Lookup(lex, lex.lower(word))
    case None => None
    case Some(e) =>
      var chosen := Chosen(lex, c, e, seen);
      if lex.lower(chosen) == lex.lower(word) then None else Some(ApplyCase(lex, word, chosen))
  }

  function Swapped(lex: Lexicon, c: Client, word: string, seen: Counts): string {
    Substitute(lex, c, word, seen).UnwrapOr(word)
  }

  /** The length of the run of letters a text starts with. */
  function Run(text: string): (n: nat)
    ensures n <= |text| && Letters(text[..n]) && (n < |text| ==> !IsLetter(text[n]))
    ensures text != "" && IsLetter(text[0]) ==> n > 0
  {
    if text == "" || !IsLetter(text[0]) then 0
    else
      var n := 1 + Run(text[1..]);
      assert text[..n] == [text[0]] + text[1..][..n - 1];
      n
  }

  /** The shuffled text: every maximal run of letters is one word. */
  function Shuffled(lex: Lexicon, c: Client, text: string, seen: Counts): string
    decreases |text|
  {
    if text == "" then ""
    else if !IsLetter(text[0]) then [text[0]] + Shuffled(lex, c, text[1..], seen)
    else
      var n := Run(text);
      Swapped(lex, c, text[..n], seen) + Shuffled(lex, c, text[n..], Counted(lex, text[..n], seen))
  }

  /** The record of the words replaced, with their places in the original. */
  function Replaced(lex: Lexicon, c: Client, text: string, seen: Counts, offset: nat): seq<Replacement>
    decreases |text|
  {
    if text == "" then []
    else if !IsLetter(text[0]) then Replaced(lex, c, text[1..], seen, offset + 1)
    else
      var n := Run(text);
      Noted(lex, c, text[..n], seen, offset) + Replaced(lex, c, text[n..], Counted(lex, text[..n], seen), offset + n)
  }

  function Noted(lex: Lexicon, c: Client, word: string, seen: Counts, offset: nat): seq<Replacement> {
    var s := Substitute(lex, c, word, seen);
    if s.None? then [] else [Replacement(offset, word, s.value, Lookup(lex, lex.lower(word)).value.groupId)]
  }

  /** The groups and new words of the replacements, with commas between them. */
  function Joined(lex: Lexicon, rs: seq<Replacement>): string {
    if rs == [] then ""
    else
      var n := |rs| - 1;
      Joined(lex, rs[..n]) + (if n > 0 then "," else "") + Decimal(rs[n].groupId) + ":" + rs[n].replacement
  }

  function VariantMessage(lex: Lexicon, c: Client, rs: seq<Replacement>): string {
    "variant|" + c.id + "|" + Joined(lex, rs)
  }

  datatype ShuffleResult = ShuffleResult(text: string, replacements: seq<Replacement>, variantHash: string)

  function Shuffle(lex: Lexicon, c: Client, text: string): ShuffleResult {
    var replaced := Replaced(lex, c, text, map[], 0);
    ShuffleResult(Shuffled(lex, c, text, map[]), replaced, lex.variant(c.secret, VariantMessage(lex, c, replaced)))
  }

  ghost predicate IsTable(lex: Lexicon, table: map<string, Entry>) {
    forall key :: Lookup(lex, key) == if key in table then Some(table[key]) else None
  }

  /** What happens at each word: the count of its group moves on, and a replacement is noted. */
  method ReplaceWord(lex: Lexicon, table: map<string, Entry>, c: Client, word: string, offset: nat, seen: Counts)
    returns (out: string, noted: seq<Replacement>, occurrences: Counts)
    requires IsTable(lex, table)
    ensures out == Swapped(lex, c, word, seen) && noted == Noted(lex, c, word, seen, offset)
    ensures occurrences == Counted(lex, word, seen)
  {
    hide ApplyCase;
    out, noted, occurrences := word, [], seen;
    var key := lex.lower(word);
    assert Lookup(lex, key) == if key in table then Some(table[key]) else None;
    if key in table {
      var entry := table[key];
      var occurrence := if entry.groupId in seen then seen[entry.groupId] else 0;
      occurrences := seen[entry.groupId := occurrence + 1];
      var pick := Draw(lex, c, entry.groupId, occurrence) % |entry.options|;
      var chosen := entry.options[pick];
      if lex.lower(chosen) != key {
        out := ApplyCase(lex, word, chosen);
        noted := [Replacement(offset, word, out, entry.groupId)];
      }
    }
  }

  /** One character outside words, or one whole word. */
  method NextPiece(lex: Lexicon, table: map<string, Entry>, c: Client, text: string, i: nat, seen: Counts)
    returns (piece: string, noted: seq<Replacement>, now: Counts, j: nat)
    requires IsTable(lex, table) && i < |text|
    ensures i < j <= |text|
    ensures Shuffled(lex, c, text[i..], seen) == piece + Shuffled(lex, c, text[j..], now)
    ensures Replaced(lex, c, text[i..], seen, i) == noted + Replaced(lex, c, text[j..], now, j)
  {
    hide IsTable, Swapped, Noted, Counted, Shuffled, Replaced, IsLetter;
    ShuffleStep(lex, c, text, i, seen);
    if !IsLetter(text[i]) {
      piece, noted, now, j := [text[i]], [], seen, i + 1;
    } else {
      var n := Run(text[i..]);
      j := i + n;
      piece, noted, now := ReplaceWord(lex, table, c, text[i..j], i, seen);
    }
  }

  method ShuffleByClient(lex: Lexicon, table: map<string, Entry>, text: string, c: Client) returns (r: ShuffleResult)
    requires IsTable(lex, table)
    ensures r == Shuffle(lex, c, text)
  {
    hide IsTable, Shuffled, Replaced;
    var out, replacements := "", [];
    var occurrences: Counts := map[];
    var i := 0;
    assert text[0..] == text;
    while i < |text|
      invariant i <= |text|
      invariant out + Shuffled(lex, c, text[i..], occurrences) == Shuffled(lex, c, text, map[])
      invariant replacements + Replaced(lex, c, text[i..], occurrences, i) == Replaced(lex, c, text, map[], 0)
      decreases |text| - i
    {
      var piece, noted, now, j := NextPiece(lex, table, c, text, i, occurrences);
      Regroup(out, piece, Shuffled(lex, c, text[j..], now));
      Regroup(replacements, noted, Replaced(lex, c, text[j..], now, j));
      out, replacements, occurrences, i := out + piece, replacements + noted, now, j;
    }
    NothingLeft(lex, c, occurrences, i);
    assert text[i..] == "" && out + "" == out && replacements + [] == replacements;
    r := ShuffleResult(out, replacements, lex.variant(c.secret, VariantMessage(lex, c, replacements)));
  }

  lemma NothingLeft(lex: Lexicon, c: Client, seen: Counts, offset: nat)
    ensures Shuffled(lex, c, "", seen) == "" && Replaced(lex, c, "", seen, offset) == []
  {}

  lemma ShuffleStep(lex: Lexicon, c: Client, text: string, i: nat, seen: Counts)
    requires i < |text|
    ensures !IsLetter(text[i]) ==>
              && Shuffled(lex, c, text[i..], seen) == [text[i]] + Shuffled(lex, c, text[i + 1..], seen)
              && Replaced(lex, c, text[i..], seen, i) == Replaced(lex, c, text[i + 1..], seen, i + 1)
    ensures var n := Run(text[i..]);
            var word := text[i..i + n];
            IsLetter(text[i]) ==>
              && n > 0
              && Shuffled(lex, c, text[i..], seen) ==
                 Swapped(lex, c, word, seen) + Shuffled(lex, c, text[i + n..], Counted(lex, word, seen))
              && Replaced(lex, c, text[i..], seen, i) ==
                 Noted(lex, c, word, seen, i) + Replaced(lex, c, text[i + n..], Counted(lex, word, seen), i + n)
  {
    hide IsLetter, Swapped, Noted, Counted;
    var n := Run(text[i..]);
    assert text[i..][1..] == text[i + 1..];
    assert text[i..][..n] == text[i..i + n] && text[i..][n..] == text[i + n..];
  }

  // ---- The shuffled text is a fixed point

  /** A word is taken for itself again after it was replaced: same group, same choice, nothing left to replace. */
  lemma SwappedIsStable(lex: Lexicon, c: Client, word: string, seen: Counts)
    requires LawfulLexicon(lex) && Letters(word) && word != ""
    ensures var w := Swapped(lex, c, word, seen);
            && Letters(w) && w != ""
            && Substitute(lex, c, w, seen) == None
            && Counted(lex, w, seen) == Counted(lex, word, seen)
  {
    hide Lookup, Letters;
    var found := Lookup(lex, lex.lower(word));
    if found.Some? {
      var e := found.value;
      LookupMeans(lex, lex.lower(word));
      var chosen := Chosen(lex, c, e, seen);
      var i := Draw(lex, c, e.groupId, CountOf(seen, e.groupId)) % |e.options|;
      assert chosen == lex.groups[e.groupId][i];
      OwnGroup(lex, e.groupId, i);
      assert CasesKeepWord(lex, chosen);
    }
  }

  lemma LookupMeans(lex: Lexicon, key: string)
    ensures var r := Lookup(lex, key);
            r.Some? ==> r.value.groupId < |lex.groups| && r.value.options == lex.groups[r.value.groupId] && r.value.options != []
  {}

  lemma {:induction false} RunOfWord(word: string, rest: string)
    requires Letters(word) && (rest == "" || !IsLetter(rest[0]))
    ensures Run(word + rest) == |word|
  {
    hide IsLetter;
    if word == "" {
      assert word + rest == rest;
    } else {
      RunOfWord(word[1..], rest);
      assert (word + rest)[1..] == word[1..] + rest;
    }
  }

  lemma ShuffledStart(lex: Lexicon, c: Client, text: string, seen: Counts)
    requires text == "" || !IsLetter(text[0])
    ensures var r := Shuffled(lex, c, text, seen); r == "" || !IsLetter(r[0])
  {}

  lemma StableWord(lex: Lexicon, c: Client, w: string, rest: string, seen: Counts, offset: nat)
    requires Letters(w) && w != "" && (rest == "" || !IsLetter(rest[0]))
    requires Substitute(lex, c, w, seen) == None
    ensures var now := Counted(lex, w, seen);
            && Shuffled(lex, c, w + rest, seen) == w + Shuffled(lex, c, rest, now)
            && Replaced(lex, c, w + rest, seen, offset) == Replaced(lex, c, rest, now, offset + |w|)
  {
    hide Counted, Substitute, IsLetter;
    RunOfWord(w, rest);
    assert (w + rest)[..|w|] == w && (w + rest)[|w|..] == rest;
    assert (w + rest)[0] == w[0];
  }

  /** Shuffling again changes nothing and replaces nothing. */
  lemma {:induction false} ShuffleIsStable(lex: Lexicon, c: Client, text: string, seen: Counts, offset: nat)
    requires LawfulLexicon(lex)
    ensures Shuffled(lex, c, Shuffled(lex, c, text, seen), seen) == Shuffled(lex, c, text, seen)
    ensures Replaced(lex, c, Shuffled(lex, c, text, seen), seen, offset) == []
    decreases |text|
  {
    hide LawfulLexicon, Counted, Substitute, IsLetter, Letters, Swapped, Noted;
    if text == "" {
    } else if !IsLetter(text[0]) {
      ShuffleIsStable(lex, c, text[1..], seen, offset + 1);
      var rest := Shuffled(lex, c, text[1..], seen);
      assert ([text[0]] + rest)[1..] == rest;
    } else {
      var n := Run(text);
      FirstRun(text);
      var now := Counted(lex, text[..n], seen);
      var w, rest := Swapped(lex, c, text[..n], seen), Shuffled(lex, c, text[n..], now);
      SwappedIsStable(lex, c, text[..n], seen);
      ShuffledStart(lex, c, text[n..], now);
      ShuffleIsStable(lex, c, text[n..], now, offset + |w|);
      StableWord(lex, c, w, rest, seen, offset);
    }
  }

  lemma FirstRun(text: string)
    requires text != "" && IsLetter(text[0])
    ensures 0 < Run(text) <= |text| && Letters(text[..Run(text)]) && (Run(text) < |text| ==> !IsLetter(text[Run(text)]))
  {}

  predicate AllOf(p: char -> bool, s: string) { forall i :: 0 <= i < |s| ==> p(s[i]) }

  lemma AllOfConcat(p: char -> bool, x: string, y: string)
    ensures AllOf(p, x + y) <==> AllOf(p, x) && AllOf(p, y)
  {
    if AllOf(p, x + y) {
      assert forall i :: 0 <= i < |x| ==> x[i] == (x + y)[i];
      assert forall i :: 0 <= i < |y| ==> y[i] == (x + y)[|x| + i];
    }
  }

  /** Shuffling keeps every property of characters that all letters have. */
  lemma {:induction false} ShuffleKeepsAll(lex: Lexicon, c: Client, text: string, seen: Counts, p: char -> bool)
    requires LawfulLexicon(lex) && AllOf(p, text)
    requires forall ch :: IsLetter(ch) ==> p(ch)
    ensures AllOf(p, Shuffled(lex, c, text, seen))
    decreases |text|
  {
    hide LawfulLexicon, Counted, Substitute, Swapped;
    if text == "" {
    } else if !IsLetter(text[0]) {
      assert text == [text[0]] + text[1..];
      AllOfConcat(p, [text[0]], text[1..]);
      ShuffleKeepsAll(lex, c, text[1..], seen, p);
      AllOfConcat(p, [text[0]], Shuffled(lex, c, text[1..], seen));
    } else {
      var n := Run(text);
      var word, now := text[..n], Counted(lex, text[..n], seen);
      assert text == word + text[n..];
      AllOfConcat(p, word, text[n..]);
      SwappedIsStable(lex, c, word, seen);
      ShuffleKeepsAll(lex, c, text[n..], now, p);
      AllOfConcat(p, Swapped(lex, c, word, seen), Shuffled(lex, c, text[n..], now));
    }
  }

  // ---- Letters, cases and messages in plain terms

  /** The letters of a word: the Latin ones, and by code point the six Turkish ones in both cases, one of them twice. */
  lemma LettersAre(c: char)
    ensures IsLetter(c) <==>
            || 97 <= c as int <= 122 || 65 <= c as int <= 90
            || c as int in {199, 286, 304, 305, 214, 350, 220, 231, 287, 246, 351, 252}
  {
    var s, t := "\U{00C7}\U{011E}\U{0130}\U{0131}\U{00D6}\U{015E}\U{00DC}", "\U{00E7}\U{011F}\U{00F6}\U{015F}\U{00FC}";
    assert s[0] as int == 199 && s[1] as int == 286 && s[2] as int == 304 && s[3] as int == 305;
    assert s[4] as int == 214 && s[5] as int == 350 && s[6] as int == 220;
    assert t[0] as int == 231 && t[1] as int == 287 && t[2] as int == 246 && t[3] as int == 351 && t[4] as int == 252;
    assert c in s <==> exists i :: 0 <= i < 7 && s[i] == c;
    assert c in t <==> exists i :: 0 <= i < 5 && t[i] == c;
  }

  /** A replacement takes the case of the word: all capitals, a leading capital, or none. */
  lemma CaseMeans(lex: Lexicon, template: string, word: string)
    requires template != "" && word != ""
    ensures var allUpper := lex.upper(template) == template;
            var firstUpper := lex.upper(template[..1]) == template[..1] && lex.lower(template[..1]) != template[..1];
            && (allUpper && |template| >= 2 ==> ApplyCase(lex, template, word) == lex.upper(word))
            && (!(allUpper && |template| >= 2) && firstUpper ==>
                  ApplyCase(lex, template, word) == lex.upper(word[..1]) + lex.lower(word[1..]))
            && (!(allUpper && |template| >= 2) && !firstUpper ==> ApplyCase(lex, template, word) == lex.lower(word))
  {
    assert template[..1] == [template[0]];
  }

  /** The hashed message of a variant: the client, then group and new word of every replacement, separated by commas. */
  lemma VariantSpelled(lex: Lexicon, c: Client, r: Replacement, s: Replacement)
    ensures VariantMessage(lex, c, []) == "variant" + "|" + c.id + "|"
    ensures VariantMessage(lex, c, [r]) == "variant" + "|" + c.id + "|" + (Decimal(r.groupId) + ":" + r.replacement)
    ensures forall rs: seq<Replacement> :: rs != [] ==>
              Joined(lex, rs + [s]) == Joined(lex, rs) + "," + Decimal(s.groupId) + ":" + s.replacement
  {
    hide Decimal;
    assert [r][..0] == [];
    assert Joined(lex, [r]) == Decimal(r.groupId) + ":" + r.replacement;
    assert Joined(lex, []) == "";
    forall rs: seq<Replacement> | rs != []
      ensures Joined(lex, rs + [s]) == Joined(lex, rs) + "," + Decimal(s.groupId) + ":" + s.replacement
    {
      assert (rs + [s])[..|rs|] == rs;
    }
  }

  // ---- The draws

  /** Client, group and occurrence can be told from the message a draw hashes. */
  lemma DrawsTell(id: string, group: nat, n: nat, id': string, group': nat, n': nat)
    ensures DrawMessage(id, group, n) == DrawMessage(id', group', n') <==> id == id' && group == group' && n == n'
  {
    DrawParts(id, group, n);
    DrawParts(id', group', n');
    hide DrawMessage;
    LastTells(id + (['|'] + Decimal(group)), id' + (['|'] + Decimal(group')), '|', Decimal(n), Decimal(n'));
    LastTells(id, id', '|', Decimal(group), Decimal(group'));
    DecimalTells(group, group');
    DecimalTells(n, n');
  }

  lemma DrawParts(id: string, group: nat, n: nat)
    ensures DrawMessage(id, group, n) == id + (['|'] + Decimal(group)) + (['|'] + Decimal(n))
  {
    hide Decimal;
  }

  /** Which member of its group a word becomes: the first four digest bytes modulo the size of the group. */
  lemma ChoiceMeans(lex: Lexicon, c: Client, e: Entry, seen: Counts)
    requires e.options != [] && forall key, message :: |lex.mac(key, message)| == 32
    ensures var n := if e.groupId in seen then seen[e.groupId] else 0;
            var mac := lex.mac(c.secret, c.id + ("|" + Decimal(e.groupId) + "|" + Decimal(n)));
            Chosen(lex, c, e, seen) == e.options[HighestFirst(mac[0..4]) % |e.options|]
  {
    var n := CountOf(seen, e.groupId);
    hide Decimal;
    assert DrawMessage(c.id, e.groupId, n) == c.id + ("|" + Decimal(e.groupId) + "|" + Decimal(n));
    hide DrawMessage;
    FirstWordSpells(lex.mac(c.secret, DrawMessage(c.id, e.groupId, n)));
    hide HighestFirst, FirstWord;
  }
}
