/**
 * `front/src/helpers/palette.ts`: the arithmetic of the command palette.
 *
 * A query is folded to lower case, cut into words, and every word has to land
 * somewhere in an entry.  The theorems are about typing: one more character
 * never brings an entry back, and a completion never takes one away.
 */
module Palette {
  import opened Orders

  datatype Option<T> = None | Some(value: T)
  datatype Candidate = Candidate(group: string, text: string, detail: string)

  /** `toLowerCase`, character by character. */
  type Fold = char -> char

  /** White space and line ends, as `\s` and `trim` take them. */
  predicate IsSpace(c: char) {
    || '\U{0009}' <= c <= '\U{000D}'
    || c == ' ' || c == '\U{00A0}' || c == '\U{1680}'
    || '\U{2000}' <= c <= '\U{200A}'
    || c == '\U{2028}' || c == '\U{2029}' || c == '\U{202F}' || c == '\U{205F}' || c == '\U{3000}' || c == '\U{FEFF}'
  }

  /** Folding neither makes nor unmakes white space. */
  ghost predicate KeepsSpace(fold: Fold) {
    forall c :: IsSpace(fold(c)) <==> IsSpace(c)
  }

  function Lower(fold: Fold, s: string): (r: string)
    ensures |r| == |s| && forall i | 0 <= i < |s| :: r[i] == fold(s[i])
  {
    seq(|s|, i requires 0 <= i < |s| => fold(s[i]))
  }

  const START: nat := 100
  const WORD: nat := 80
  const LABEL: nat := 60
  const LABEL_LOOSE: nat := 30
  const DETAIL: nat := 20
  const GROUP: nat := 12

  predicate Boundary(c: char) {
    c == ' ' || c == '/' || c == '-' || c == '_' || c == '.' || c == ':' || c == '@'
  }

  // ------------------------------------------------------------------ in order, not together

  /** Positions of `needle`'s characters in `hay`, in increasing order. */
  ghost predicate Embedding(needle: string, hay: string, at: seq<nat>) {
    && |at| == |needle|
    && (forall i | 0 <= i < |at| :: at[i] < |hay| && hay[at[i]] == needle[i])
    && (forall i, j | 0 <= i < j < |at| :: at[i] < at[j])
  }

  ghost predicate Embeds(needle: string, hay: string) {
    exists at: seq<nat> :: Embedding(needle, hay, at)
  }

  /** How much of `needle` has been met, taking each character as soon as it comes. */
  function Met(needle: string, hay: string): (at: nat)
    ensures at <= |needle|
  {
    if hay == "" then 0
    else
      var at := Met(needle, hay[..|hay| - 1]);
      if at < |needle| && hay[|hay| - 1] == needle[at] then at + 1 else at
  }

  predicate Loose(needle: string, hay: string) {
    Met(needle, hay) == |needle|
  }

  /** `loosely` */
  method Loosely(needle: string, hay: string) returns (found: bool)
    ensures found <==> Embeds(needle, hay)
  {
    MetIsLongest(needle, hay);
    var at := 0;
    for i := 0 to |hay|
      invariant at == Met(needle, hay[..i]) && (i > 0 ==> at < |needle|)
    {
      assert hay[..i + 1][..i] == hay[..i];
      if at < |needle| && hay[i] == needle[at] { at := at + 1; }
      if at == |needle| {
        MetStays(needle, hay, i + 1);
        return true;
      }
    }
    assert hay[..|hay|] == hay;
    return |needle| == 0;
  }

  lemma {:induction false} MetStays(needle: string, hay: string, n: nat)
    requires n <= |hay| && Met(needle, hay[..n]) == |needle|
    ensures Met(needle, hay) == |needle|
    decreases |hay| - n
  {
    if n < |hay| {
      assert hay[..n + 1][..n] == hay[..n];
      MetStays(needle, hay, n + 1);
    } else {
      assert hay[..n] == hay;
    }
  }

  /** Taking each character as soon as it comes meets the longest prefix that can be met. */
  lemma {:induction false} MetIsLongest(needle: string, hay: string)
    ensures Embeds(needle[..Met(needle, hay)], hay)
    ensures Met(needle, hay) < |needle| ==> !Embeds(needle[..Met(needle, hay) + 1], hay)
    ensures Loose(needle, hay) <==> Embeds(needle, hay)
  {
    var met := Met(needle, hay);
    if hay == "" {
      assert Embedding(needle[..0], hay, []);
      if needle != "" {
        var one := needle[..1];
        forall at: seq<nat> | |at| == 1 ensures !Embedding(one, hay, at) { assert at[0] >= 0; }
      }
    } else {
      var front, i := hay[..|hay| - 1], |hay| - 1;
      var before := Met(needle, front);
      MetIsLongest(needle, front);
      var at :| Embedding(needle[..before], front, at);
      if met == before + 1 {
        assert Embedding(needle[..met], hay, at + [i]);
      } else {
        assert Embedding(needle[..met], hay, at);
      }
      if met < |needle| { NoLonger(needle, hay, met, before); }
    }
    if met < |needle| { PrefixEmbeds(needle, hay, met + 1); }
    assert needle[..|needle|] == needle;
  }

  lemma PrefixEmbeds(needle: string, hay: string, n: nat)
    requires n <= |needle|
    ensures Embeds(needle, hay) ==> Embeds(needle[..n], hay)
  {
    if at: seq<nat> :| Embedding(needle, hay, at) {
      assert Embedding(needle[..n], hay, at[..n]);
    }
  }

  lemma NoLonger(needle: string, hay: string, met: nat, before: nat)
    requires hay != "" && before <= met < |needle|
    requires before == Met(needle, hay[..|hay| - 1]) && met == Met(needle, hay)
    requires !Embeds(needle[..before + 1], hay[..|hay| - 1])
    ensures !Embeds(needle[..met + 1], hay)
  {
    var front := hay[..|hay| - 1];
    var longer := needle[..met + 1];
    if at: seq<nat> :| Embedding(longer, hay, at) {
      EmbeddingShorter(needle, hay, met, before, at);
    }
  }

  lemma EmbeddingShorter(needle: string, hay: string, met: nat, before: nat, at: seq<nat>)
    requires hay != "" && before <= met < |needle| && Embedding(needle[..met + 1], hay, at)
    requires met == before + 1 || (met == before && needle[before] != hay[|hay| - 1])
    ensures Embeds(needle[..before + 1], hay[..|hay| - 1])
  {
    assert at[before] < |hay| - 1 by {
      if met == before + 1 { assert at[before] < at[met]; }
    }
    assert Embedding(needle[..before + 1], hay[..|hay| - 1], at[..before + 1]);
  }

  // ------------------------------------------------------------------ one word against one entry

  ghost predicate OccursAt(hay: string, needle: string, i: nat) {
    i + |needle| <= |hay| && hay[i..i + |needle|] == needle
  }

  ghost predicate Occurs(hay: string, needle: string) {
    exists i: nat :: OccursAt(hay, needle, i)
  }

  /** `indexOf` from a place on: the first occurrence, or -1. */
  function IndexFrom(hay: string, needle: string, from: nat): (at: int)
    requires from <= |hay|
    ensures at == -1 || at >= from
    ensures at >= 0 ==> OccursAt(hay, needle, at) && forall i | from <= i < at :: !OccursAt(hay, needle, i)
    ensures at == -1 ==> forall i: nat | from <= i :: !OccursAt(hay, needle, i)
    decreases |hay| - from
  {
    if from + |needle| <= |hay| && hay[from..from + |needle|] == needle then from
    else if from == |hay| then -1
    else IndexFrom(hay, needle, from + 1)
  }

  function TokenScore(token: string, text: string, detail: string, group: string): nat {
    var at := IndexFrom(text, token, 0);
    if at == 0 then START
    else if at > 0 then if Boundary(text[at - 1]) then WORD else LABEL
    else if Loose(token, text) then LABEL_LOOSE
    else if IndexFrom(detail, token, 0) >= 0 then DETAIL
    else if IndexFrom(group, token, 0) >= 0 then GROUP
    else 0
  }

  /** Where a word can land, without the weights. */
  ghost predicate Lands(token: string, text: string, detail: string, group: string) {
    Occurs(text, token) || Embeds(token, text) || Occurs(detail, token) || Occurs(group, token)
  }

  lemma ScoresWhereItLands(token: string, text: string, detail: string, group: string)
    requires token != ""
    ensures TokenScore(token, text, detail, group) > 0 <==> Lands(token, text, detail, group)
  {
    MetIsLongest(token, text);
    assert IndexFrom(text, token, 0) >= 0 <==> Occurs(text, token);
    assert IndexFrom(detail, token, 0) >= 0 <==> Occurs(detail, token);
    assert IndexFrom(group, token, 0) >= 0 <==> Occurs(group, token);
  }

  /** How good a word's hit is: in the text, loosely in it, in the description, in the group, nowhere. */
  ghost function Grade(token: string, text: string, detail: string, group: string): nat {
    if Occurs(text, token) then 4
    else if Embeds(token, text) then 3
    else if Occurs(detail, token) then 2
    else if Occurs(group, token) then 1
    else 0
  }

  /** A better hit scores higher, whatever the entries; a loose one stands above the description's. */
  lemma BetterHitScoresHigher(token: string, text: string, detail: string, group: string,
                              text': string, detail': string, group': string)
    requires token != ""
    ensures Grade(token, text, detail, group) > Grade(token, text', detail', group') ==>
              TokenScore(token, text, detail, group) > TokenScore(token, text', detail', group')
  {
    MetIsLongest(token, text);
    MetIsLongest(token, text');
  }

  /**
   * A word in the description never beats a loose hit in another label, and
   * draws level exactly when it is loosely in its own.
   */
  lemma DescriptionNeverBeatsLoose(token: string, text: string, detail: string, group: string,
                                   text': string, detail': string, group': string)
    requires token != "" && Occurs(detail, token) && !Occurs(text, token)
    requires !Occurs(text', token) && Embeds(token, text')
    ensures TokenScore(token, text, detail, group) <= TokenScore(token, text', detail', group')
    ensures TokenScore(token, text, detail, group) == TokenScore(token, text', detail', group') <==> Embeds(token, text)
  {
    MetIsLongest(token, text);
    MetIsLongest(token, text');
  }

  /** Typing `ren`: the description "current" scores less than the label "re-run", with the letters only in order. */
  lemma LooseBeatsDescription()
    ensures TokenScore("ren", "go", "current", "") < TokenScore("ren", "re-run", "", "")
  {
    assert OccursAt("current", "ren", 3) && Embedding("ren", "re-run", [0, 1, 5]);
    var hay := "re-run";
    forall i: nat ensures !OccursAt("go", "ren", i) && !OccursAt(hay, "ren", i) {
      if i <= 3 { assert hay[i..i + 3] == [hay[i], hay[i + 1], hay[i + 2]]; }
    }
    DescriptionNeverBeatsLoose("ren", "go", "current", "", hay, "", "");
  }

  lemma {:induction false} OccursShorter(hay: string, token: string, c: char)
    requires Occurs(hay, token + [c])
    ensures Occurs(hay, token)
  {
    var i: nat :| OccursAt(hay, token + [c], i);
    assert hay[i..i + |token|] == hay[i..i + |token| + 1][..|token|] == token;
    assert OccursAt(hay, token, i);
  }

  lemma EmbedsShorter(token: string, c: char, hay: string)
    requires Embeds(token + [c], hay)
    ensures Embeds(token, hay)
  {
    var at: seq<nat> :| Embedding(token + [c], hay, at);
    assert Embedding(token, hay, at[..|token|]);
  }

  lemma LandsShorter(token: string, c: char, text: string, detail: string, group: string)
    requires Lands(token + [c], text, detail, group)
    ensures Lands(token, text, detail, group)
  {
    if Occurs(text, token + [c]) { OccursShorter(text, token, c); }
    else if Embeds(token + [c], text) { EmbedsShorter(token, c, text); }
    else if Occurs(detail, token + [c]) { OccursShorter(detail, token, c); }
    else { OccursShorter(group, token, c); }
  }

  // ------------------------------------------------------------------ a query against one entry

  /** `split(/\s+/).filter(Boolean)` */
  function Words(s: string): (r: seq<string>)
    ensures s != "" && !IsSpace(s[|s| - 1]) ==> |r| > 0
    ensures forall w | w in r :: w != ""
  {
    if s == "" then []
    else
      var front, c := s[..|s| - 1], s[|s| - 1];
      var r := Words(front);
      if IsSpace(c) then r
      else if front != "" && !IsSpace(front[|front| - 1]) then
        var longer := r[..|r| - 1] + [r[|r| - 1] + [c]];
        assert forall i | 0 <= i < |r| - 1 :: longer[i] in r;
        longer
      else r + [[c]]
  }

  /** The sum over the words, or nothing as soon as one lands nowhere. */
  function ScoreWords(words: seq<string>, text: string, detail: string, group: string): Option<nat> {
    if words == [] then Some(0)
    else
      var front := ScoreWords(words[..|words| - 1], text, detail, group);
      var got := TokenScore(words[|words| - 1], text, detail, group);
      if front.None? || got == 0 then None else Some(front.value + got)
  }

  function ScoreOf(fold: Fold, query: string, c: Candidate): Option<nat> {
    ScoreWords(Words(Lower(fold, query)), Lower(fold, c.text), Lower(fold, c.detail), Lower(fold, c.group))
  }

  lemma {:induction false} NoneStays(words: seq<string>, n: nat, text: string, detail: string, group: string)
    requires n <= |words| && ScoreWords(words[..n], text, detail, group).None?
    ensures ScoreWords(words, text, detail, group).None?
    decreases |words| - n
  {
    if n < |words| {
      assert words[..n + 1][..n] == words[..n];
      NoneStays(words, n + 1, text, detail, group);
    } else {
      assert words[..n] == words;
    }
  }

  lemma NoWords(text: string, detail: string, group: string)
    ensures ScoreWords([], text, detail, group) == Some(0)
  {
  }

  lemma OneMoreWord(words: seq<string>, n: nat, text: string, detail: string, group: string)
    requires n < |words|
    ensures var front, got := ScoreWords(words[..n], text, detail, group), TokenScore(words[n], text, detail, group);
            ScoreWords(words[..n + 1], text, detail, group)
            == if front.None? || got == 0 then None else Some(front.value + got)
  {
    assert words[..n + 1][..n] == words[..n];
    hide TokenScore;
  }

  /** The loop of `score`. */
  method AddUp(tokens: seq<string>, text: string, detail: string, group: string) returns (r: Option<nat>)
    ensures r == ScoreWords(tokens, text, detail, group)
  {
    var total := 0;
    NoWords(text, detail, group);
    hide TokenScore, ScoreWords;
    for i := 0 to |tokens|
      invariant ScoreWords(tokens[..i], text, detail, group) == Some(total)
    {
      OneMoreWord(tokens, i, text, detail, group);
      var got := TokenScore(tokens[i], text, detail, group);
      if got == 0 {
        NoneStays(tokens, i + 1, text, detail, group);
        return None;
      }
      total := total + got;
    }
    assert tokens[..|tokens|] == tokens;
    return Some(total);
  }

  /** `score` */
  method Score(fold: Fold, query: string, candidate: Candidate) returns (r: Option<nat>)
    ensures r == ScoreOf(fold, query, candidate)
  {
    var tokens := Words(Lower(fold, query));
    if |tokens| == 0 { return Some(0); }
    r := AddUp(tokens, Lower(fold, candidate.text), Lower(fold, candidate.detail), Lower(fold, candidate.group));
  }

  /** An entry matches when every word of the query lands in it. */
  lemma {:induction false} ScoresWhenAllLand(words: seq<string>, text: string, detail: string, group: string)
    requires forall w | w in words :: w != ""
    ensures ScoreWords(words, text, detail, group).Some? <==> forall w | w in words :: Lands(w, text, detail, group)
  {
    hide TokenScore, Lands;
    if words != [] {
      var front, last := words[..|words| - 1], words[|words| - 1];
      assert words == front + [last];
      assert last in words && forall w | w in front :: w in words;
      ScoresWhenAllLand(front, text, detail, group);
      ScoresWhereItLands(last, text, detail, group);
    }
  }

  lemma {:induction false} MoveToEnd(a: seq<string>, w: string, b: seq<string>, text: string, detail: string,
                                     group: string)
    ensures ScoreWords(a + [w] + b, text, detail, group) == ScoreWords(a + b + [w], text, detail, group)
  {
    hide TokenScore;
    if b == [] {
      assert a + [w] + b == a + b + [w];
    } else {
      var front, last := b[..|b| - 1], b[|b| - 1];
      MoveToEnd(a, w, front, text, detail, group);
      assert (a + [w] + b)[..|a| + |b|] == a + [w] + front;
      assert (a + b + [w])[..|a| + |b|] == a + b;
      assert (a + b)[..|a| + |front|] == a + front;
      assert (a + front + [w])[..|a| + |front|] == a + front;
    }
  }

  /** `pane copy` and `copy pane` are the same query. */
  lemma {:induction false} WordOrderDoesNotMatter(words: seq<string>, words': seq<string>, text: string,
                                                  detail: string, group: string)
    requires multiset(words) == multiset(words')
    ensures ScoreWords(words, text, detail, group) == ScoreWords(words', text, detail, group)
  {
    if words == [] {
      assert |multiset(words')| == 0;
    } else {
      var front, last := words[..|words| - 1], words[|words| - 1];
      assert words == front + [last];
      var a, b := TakeOut(front, last, words');
      hide *;
      MoveToEnd(a, last, b, text, detail, group);
      WordOrderDoesNotMatter(front, a + b, text, detail, group);
      SameLast(front, a + b, last, text, detail, group);
    }
  }

  lemma SameLast(xs: seq<string>, ys: seq<string>, w: string, text: string, detail: string, group: string)
    requires ScoreWords(xs, text, detail, group) == ScoreWords(ys, text, detail, group)
    ensures ScoreWords(xs + [w], text, detail, group) == ScoreWords(ys + [w], text, detail, group)
  {
    assert (xs + [w])[..|xs|] == xs && (ys + [w])[..|ys|] == ys;
  }

  lemma TakeOut(front: seq<string>, last: string, words: seq<string>) returns (a: seq<string>, b: seq<string>)
    requires multiset(front + [last]) == multiset(words)
    ensures words == a + [last] + b && multiset(front) == multiset(a + b)
  {
    assert last in multiset(front + [last]);
    assert last in words;
    var i :| 0 <= i < |words| && words[i] == last;
    a, b := words[..i], words[i + 1..];
    assert words == a + [last] + b;
    var all, one := multiset(words), multiset{last};
    assert all == multiset(a) + one + multiset(b);
    assert all == multiset(front) + one;
    assert multiset(front) == all - one;
    assert multiset(a) + multiset(b) == all - one;
    assert multiset(a + b) == multiset(a) + multiset(b);
  }

  /** What one more character does to the words: nothing, a longer last word, or a new one. */
  lemma TypedWords(s: string, c: char)
    ensures var w, w' := Words(s), Words(s + [c]);
            || w' == w
            || w' == w + [[c]]
            || (|w| > 0 && w' == w[..|w| - 1] + [w[|w| - 1] + [c]])
  {
    assert (s + [c])[..|s|] == s;
  }

  /** "A palette that never narrows" is the one thing this is not: a longer query matches no new entry. */
  lemma TypingNarrows(fold: Fold, query: string, c: char, candidate: Candidate)
    requires ScoreOf(fold, query + [c], candidate).Some?
    ensures ScoreOf(fold, query, candidate).Some?
  {
    var text, detail, group := Lower(fold, candidate.text), Lower(fold, candidate.detail), Lower(fold, candidate.group);
    var s := Lower(fold, query);
    assert Lower(fold, query + [c]) == s + [fold(c)];
    var w, w' := Words(s), Words(s + [fold(c)]);
    TypedWords(s, fold(c));
    ScoresWhenAllLand(w, text, detail, group);
    ScoresWhenAllLand(w', text, detail, group);
    WordsNarrow(w, w', fold(c), text, detail, group);
  }

  lemma WordsNarrow(w: seq<string>, w': seq<string>, c: char, text: string, detail: string, group: string)
    requires w' == w || w' == w + [[c]] || (|w| > 0 && w' == w[..|w| - 1] + [w[|w| - 1] + [c]])
    requires forall x | x in w' :: Lands(x, text, detail, group)
    ensures forall x | x in w :: Lands(x, text, detail, group)
  {
    hide Lands;
    if |w| > 0 && w' == w[..|w| - 1] + [w[|w| - 1] + [c]] {
      var front, last := w[..|w| - 1], w[|w| - 1];
      assert w == front + [last];
      assert last + [c] in w' && forall x | x in front :: x in w';
      LandsShorter(last, c, text, detail, group);
    }
  }

  // ------------------------------------------------------------------ ranking

  datatype Kept = Kept(score: nat, at: nat)

  /** `b.score === a.score ? a.at - b.at : b.score - a.score` is negative. */
  predicate Ahead(a: Kept, b: Kept) {
    if a.score == b.score then a.at < b.at else a.score > b.score
  }

  lemma AheadIsTotal()
    ensures Total(Ahead)
  {}

  ghost predicate Matches(fold: Fold, items: seq<Candidate>, query: string, k: Kept) {
    k.at < |items| && ScoreOf(fold, query, items[k.at]) == Some(k.score)
  }

  /** `ranked` is the matches, best first and as declared among equals. */
  ghost predicate RanksBy(fold: Fold, items: seq<Candidate>, query: string, order: seq<Kept>, ranked: seq<Candidate>) {
    && Sorted(Ahead, order)
    && (forall k :: k in order <==> Matches(fold, items, query, k))
    && |ranked| == |order|
    && (forall i | 0 <= i < |order| :: order[i].at < |items| && ranked[i] == items[order[i].at])
  }

  predicate Blank(s: string) {
    forall c | c in s :: IsSpace(c)
  }

  lemma {:induction false} BlankHasNoWords(fold: Fold, s: string)
    requires Blank(s) && KeepsSpace(fold)
    ensures Words(Lower(fold, s)) == []
  {
    if s != "" {
      assert s[|s| - 1] in s;
      assert Lower(fold, s)[..|s| - 1] == Lower(fold, s[..|s| - 1]);
      BlankHasNoWords(fold, s[..|s| - 1]);
    }
  }

  /** A blank query scores nothing against everything: the table of contents as it was arranged. */
  lemma BlankRanksAll(fold: Fold, items: seq<Candidate>, query: string) returns (order: seq<Kept>)
    requires KeepsSpace(fold) && Blank(query)
    ensures RanksBy(fold, items, query, order, items)
  {
    BlankHasNoWords(fold, query);
    order := seq(|items|, i requires 0 <= i < |items| => Kept(0, i));
    forall k ensures k in order <==> Matches(fold, items, query, k) {
      if Matches(fold, items, query, k) { assert order[k.at] == k; }
    }
  }

  /** The entries that match, in their declared order. */
  method Collect(fold: Fold, items: seq<Candidate>, query: string) returns (kept: seq<Kept>)
    ensures Distinct(kept) && forall k :: k in kept <==> Matches(fold, items, query, k)
  {
    hide ScoreOf;
    kept := [];
    for at := 0 to |items|
      invariant forall k :: k in kept <==> k.at < at && Matches(fold, items, query, k)
      invariant Distinct(kept)
    {
      var got := Score(fold, query, items[at]);
      assert forall i | 0 <= i < |kept| :: kept[i] in kept;
      if got.Some? { kept := kept + [Kept(got.value, at)]; }
    }
  }

  /** `rank` */
  method Rank(fold: Fold, items: seq<Candidate>, query: string) returns (ranked: seq<Candidate>, ghost order: seq<Kept>)
    requires KeepsSpace(fold)
    ensures RanksBy(fold, items, query, order, ranked)
    ensures Blank(query) ==> ranked == items
  {
    hide ScoreOf;
    if Blank(query) {
      order := BlankRanksAll(fold, items, query);
      return items, order;
    }
    var kept := Collect(fold, items, query);
    AheadIsTotal();
    TotalEverywhere(Ahead, Elements(kept));
    SortSorted(Ahead, kept);
    var sorted := Sort(Ahead, kept);
    MembersByMultiset(sorted, kept);
    order := sorted;
    forall i | 0 <= i < |sorted| ensures sorted[i].at < |items| {
      assert Matches(fold, items, query, sorted[i]);
    }
    ranked := seq(|sorted|, i requires 0 <= i < |sorted| => items[sorted[i].at]);
  }

  /** There is one such ranking. */
  lemma RankingIsUnique(fold: Fold, items: seq<Candidate>, query: string,
                        order: seq<Kept>, ranked: seq<Candidate>, order': seq<Kept>, ranked': seq<Candidate>)
    requires RanksBy(fold, items, query, order, ranked) && RanksBy(fold, items, query, order', ranked')
    ensures ranked == ranked'
  {
    AheadIsTotal();
    TotalEverywhere(Ahead, Elements(order));
    assert Elements(order) == Elements(order');
    SortedIsUnique(Ahead, order, order');
  }

  /** Typing more never adds a result: each place that is ranked for `query + c` was ranked for `query`. */
  lemma TypingMoreNeverAdds(fold: Fold, items: seq<Candidate>, query: string, c: char,
                            order: seq<Kept>, ranked: seq<Candidate>, order': seq<Kept>, ranked': seq<Candidate>)
    requires RanksBy(fold, items, query, order, ranked) && RanksBy(fold, items, query + [c], order', ranked')
    ensures forall k' | k' in order' :: exists k :: k in order && k.at == k'.at
    ensures forall item | item in ranked' :: item in ranked
  {
    hide ScoreOf;
    forall k' | k' in order' ensures exists k :: k in order && k.at == k'.at {
      assert Matches(fold, items, query + [c], k');
      TypingNarrows(fold, query, c, items[k'.at]);
      var k := Kept(ScoreOf(fold, query, items[k'.at]).value, k'.at);
      assert Matches(fold, items, query, k);
    }
    forall item | item in ranked' ensures item in ranked {
      var i :| 0 <= i < |ranked'| && ranked'[i] == item;
      assert order'[i] in order';
      var k :| k in order && k.at == order'[i].at;
      var j :| 0 <= j < |order| && order[j] == k;
      assert ranked[j] == item;
    }
  }

  // ------------------------------------------------------------------ headers

  datatype Headed = Headed(item: Candidate, head: Option<string>)

  function HeadFor(items: seq<Candidate>, k: nat): Option<string>
    requires k < |items|
  {
    if k > 0 && items[k - 1].group == items[k].group then None else Some(items[k].group)
  }

  /** A header on the first row of each run of one group. */
  ghost predicate HeadedRuns(items: seq<Candidate>, rows: seq<Headed>, n: nat)
    requires n <= |items| && n <= |rows|
  {
    forall k | 0 <= k < n :: rows[k] == Headed(items[k], HeadFor(items, k))
  }

  /** `withHeads` */
  method WithHeads(items: seq<Candidate>) returns (rows: seq<Headed>)
    ensures |rows| == |items| && HeadedRuns(items, rows, |items|)
  {
    var last: Option<string> := None;
    rows := [];
    for i := 0 to |items|
      invariant |rows| == i && last == if i == 0 then None else Some(items[i - 1].group)
      invariant HeadedRuns(items, rows, i)
    {
      var item := items[i];
      var head := if last == Some(item.group) then None else Some(item.group);
      last := Some(item.group);
      rows := rows + [Headed(item, head)];
    }
  }

  /** The header last drawn at or above row `i`. */
  function HeaderOver(rows: seq<Headed>, i: nat): Option<string>
    requires i < |rows|
  {
    if rows[i].head.Some? then rows[i].head else if i == 0 then None else HeaderOver(rows, i - 1)
  }

  /** "Each header is telling the truth about the rows under it." */
  lemma {:induction false} HeadersTellTheTruth(items: seq<Candidate>, rows: seq<Headed>, i: nat)
    requires i < |rows| == |items| && HeadedRuns(items, rows, |items|)
    ensures HeaderOver(rows, i) == Some(items[i].group)
  {
    assert rows[i] == Headed(items[i], HeadFor(items, i));
    if rows[i].head.None? { HeadersTellTheTruth(items, rows, i - 1); }
  }

  // ------------------------------------------------------------------ completing a path

  /** `name` starts, but for case, with the first `n` characters of `head`. */
  predicate SharesHead(fold: Fold, head: string, name: string, n: nat) {
    n <= |head| && n <= |name| && forall i | 0 <= i < n :: fold(name[i]) == fold(head[i])
  }

  predicate StartsWith(fold: Fold, name: string, leaf: string) {
    SharesHead(fold, leaf, name, |leaf|)
  }

  /** The names that carry on what has been typed, in the listing's order. */
  function Carrying(fold: Fold, names: seq<string>, leaf: string): seq<string> {
    if names == [] then []
    else
      var last := names[|names| - 1];
      Carrying(fold, names[..|names| - 1], leaf) + if StartsWith(fold, last, leaf) then [last] else []
  }

  /** `completions`: the check for the limit comes after the push, so only a positive limit limits. */
  method Completions(fold: Fold, leaf: string, names: seq<string>, limit: int) returns (kept: seq<string>)
    ensures var all := Carrying(fold, names, leaf);
            kept == if 0 < limit < |all| then all[..limit] else all
  {
    kept := [];
    for i := 0 to |names|
      invariant kept == Carrying(fold, names[..i], leaf) && (limit > 0 ==> |kept| < limit)
    {
      assert names[..i + 1][..i] == names[..i];
      if !StartsWith(fold, names[i], leaf) { continue; }
      kept := kept + [names[i]];
      if |kept| == limit {
        CarryingPrefix(fold, names, leaf, i + 1);
        return;
      }
    }
    assert names[..|names|] == names;
  }

  lemma {:induction false} CarryingPrefix(fold: Fold, names: seq<string>, leaf: string, n: nat)
    requires n <= |names|
    ensures Carrying(fold, names[..n], leaf) <= Carrying(fold, names, leaf)
    decreases |names| - n
  {
    if n < |names| {
      CarryingPrefix(fold, names, leaf, n + 1);
      assert names[..n + 1][..n] == names[..n];
    } else {
      assert names[..n] == names;
    }
  }

  lemma {:induction false} CarryingMembers(fold: Fold, names: seq<string>, leaf: string)
    ensures forall x :: x in Carrying(fold, names, leaf) <==> x in names && StartsWith(fold, x, leaf)
  {
    if names != [] {
      CarryingMembers(fold, names[..|names| - 1], leaf);
      assert names == names[..|names| - 1] + [names[|names| - 1]];
    }
  }

  /** Every one of the first `i` names shares the first `n` characters of the first one. */
  ghost predicate AllShare(fold: Fold, names: seq<string>, i: nat, n: nat)
    requires 0 < i <= |names|
  {
    forall k | 0 <= k < i :: SharesHead(fold, names[0], names[k], n)
  }

  /** `prefix` is the longest head of the first name that every name shares. */
  ghost predicate LongestShared(fold: Fold, names: seq<string>, prefix: string)
    requires names != []
  {
    && prefix <= names[0]
    && AllShare(fold, names, |names|, |prefix|)
    && forall n: nat | AllShare(fold, names, |names|, n) :: n <= |prefix|
  }

  /** `commonPrefix`: in the first name's own spelling. */
  method CommonPrefix(fold: Fold, names: seq<string>) returns (prefix: string)
    ensures names == [] ==> prefix == ""
    ensures names != [] ==> LongestShared(fold, names, prefix)
  {
    if |names| == 0 { return ""; }
    var end: nat := |names[0]|;
    for i := 1 to |names|
      invariant end <= |names[0]| && AllShare(fold, names, i, end)
      invariant forall n: nat | AllShare(fold, names, i, n) :: n <= end
    {
      var name := names[i];
      ghost var was := end;
      if |name| < end { end := |name|; }
      var at: nat := 0;
      while at < end && fold(name[at]) == fold(names[0][at])
        invariant at <= end && SharesHead(fold, names[0], name, at)
      {
        at := at + 1;
      }
      SharedSoFar(fold, names, i, i + 1, was, end, at);
      end := at;
    }
    return names[0][..end];
  }

  lemma SharedSoFar(fold: Fold, names: seq<string>, i: nat, next: nat, was: nat, end: nat, at: nat)
    requires 0 < i < |names| && next == i + 1 && was <= |names[0]| && AllShare(fold, names, i, was)
    requires forall n: nat | AllShare(fold, names, i, n) :: n <= was
    requires end == (if |names[i]| < was then |names[i]| else was) && at <= end
    requires SharesHead(fold, names[0], names[i], at)
    requires at < end ==> fold(names[i][at]) != fold(names[0][at])
    ensures AllShare(fold, names, next, at)
    ensures forall n: nat | AllShare(fold, names, next, n) :: n <= at
  {
    forall k | 0 <= k < i ensures SharesHead(fold, names[0], names[k], at) {
      assert SharesHead(fold, names[0], names[k], was);
    }
    forall n: nat | AllShare(fold, names, next, n) ensures n <= at {
      assert AllShare(fold, names, i, n);
      assert SharesHead(fold, names[0], names[i], n);
    }
  }

  /**
   * Filling in the common prefix keeps what was typed and loses no candidate:
   * the names that carried on the leaf are the names that carry on the prefix.
   */
  lemma FillingInKeepsTheCandidates(fold: Fold, names: seq<string>, leaf: string, prefix: string)
    requires Carrying(fold, names, leaf) != []
    requires LongestShared(fold, Carrying(fold, names, leaf), prefix)
    ensures StartsWith(fold, prefix, leaf)
    ensures Carrying(fold, names, prefix) == Carrying(fold, names, leaf)
  {
    var all := Carrying(fold, names, leaf);
    CarryingMembers(fold, names, leaf);
    forall k | 0 <= k < |all| ensures SharesHead(fold, all[0], all[k], |leaf|) {
      assert all[k] in all && all[0] in all;
      assert StartsWith(fold, all[k], leaf) && StartsWith(fold, all[0], leaf);
    }
    assert AllShare(fold, all, |all|, |leaf|);
    assert StartsWith(fold, all[0], leaf) by { assert all[0] in all; }
    forall x | x in names ensures StartsWith(fold, x, prefix) <==> StartsWith(fold, x, leaf) {
      if StartsWith(fold, x, leaf) {
        var k :| 0 <= k < |all| && all[k] == x;
        assert SharesHead(fold, all[0], all[k], |prefix|);
      }
    }
    CarryingSame(fold, names, leaf, prefix);
  }

  lemma {:induction false} CarryingSame(fold: Fold, names: seq<string>, leaf: string, prefix: string)
    requires forall x | x in names :: StartsWith(fold, x, prefix) <==> StartsWith(fold, x, leaf)
    ensures Carrying(fold, names, prefix) == Carrying(fold, names, leaf)
  {
    if names != [] {
      assert names[|names| - 1] in names;
      CarryingSame(fold, names[..|names| - 1], leaf, prefix);
    }
  }
}
