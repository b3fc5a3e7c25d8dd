/**
 * The top-3 ranking of `handleSearchCommand`: a three-slot buffer seeded with
 * score -1.0, filled by ordered insertion (a slot is taken only on a strictly
 * greater score, lower slots shift down), then cut to the results scoring
 * more than 0.1.
 */
module RankedSearch {
  import opened SemanticStore

  /** Go's `result` struct: a command and its similarity score. */
  datatype Candidate = Candidate(command: string, score: real)

  /**
   * A buffer slot of the specification: the candidate together with the
   * position in the history of the entry it came from; `pos == -1` marks a
   * seed slot that no entry has taken.
   */
  datatype Slot = Slot(pos: int, command: string, score: real)

  const Seed := Slot(-1, "", -1.0)
  const Threshold: real := 0.1

  /** The score of every entry, in history order; `similarity` stands for `cosineSimilarity`. */
  function Scored(entries: seq<Entry>, query: seq<real>, similarity: (seq<real>, seq<real>) -> real): (s: seq<Candidate>)
    ensures |s| == |entries|
    ensures forall k :: 0 <= k < |s| ==> s[k].command == entries[k].command
    ensures forall k :: 0 <= k < |s| ==> s[k].score == similarity(query, entries[k].embedding)
  {
    seq(|entries|, k requires 0 <= k < |entries| => Candidate(entries[k].command, similarity(query, entries[k].embedding)))
  }

  /** One pass of the inner loop: the first slot with a strictly lower score is taken. */
  function Insert(buf: seq<Slot>, x: Slot): (r: seq<Slot>)
    requires |buf| == 3
    ensures |r| == 3
  {
    if x.score > buf[0].score then [x, buf[0], buf[1]]
    else if x.score > buf[1].score then [buf[0], x, buf[1]]
    else if x.score > buf[2].score then [buf[0], buf[1], x]
    else buf
  }

  /** The buffer after the scan over all candidates. */
  function Top(scored: seq<Candidate>): (r: seq<Slot>)
    ensures |r| == 3
  {
    if |scored| == 0 then [Seed, Seed, Seed]
    else
      var n := |scored| - 1;
      Insert(Top(scored[..n]), Slot(n, scored[n].command, scored[n].score))
  }

  /** The post-filter: the slots scoring more than the threshold, in order. */
  function Relevant(buf: seq<Slot>): seq<Slot> {
    if |buf| == 0 then []
    else Relevant(buf[..|buf| - 1]) + (if buf[|buf| - 1].score > Threshold then [buf[|buf| - 1]] else [])
  }

  function Project(buf: seq<Slot>): (r: seq<Candidate>)
    ensures |r| == |buf|
  {
    seq(|buf|, k requires 0 <= k < |buf| => Candidate(buf[k].command, buf[k].score))
  }

  /** The slots the search offers, best first. */
  function Chosen(scored: seq<Candidate>): seq<Slot> {
    Relevant(Top(scored))
  }

  // ----- the buffer invariant -----

  predicate InBuffer(buf: seq<Slot>, k: int)
    requires |buf| == 3
  {
    buf[0].pos == k || buf[1].pos == k || buf[2].pos == k
  }

  /** An entry slot: it holds entry `pos` of the first `n`, with its own command and score. */
  predicate Holds(s: Slot, scored: seq<Candidate>, n: int) {
    0 <= s.pos < n <= |scored| && s.command == scored[s.pos].command
    && s.score == scored[s.pos].score && s.score > -1.0
  }

  /** `a` ranks before `b`: higher score, or equal score and inserted earlier. */
  predicate Before(a: Slot, b: Slot) {
    a.score > b.score || (a.score == b.score && a.pos < b.pos)
  }

  /** Every slot is a seed or holds one of the first `n` entries. */
  predicate SlotsHold(buf: seq<Slot>, scored: seq<Candidate>, n: int) {
    |buf| == 3 && forall i :: 0 <= i < 3 ==> buf[i] == Seed || Holds(buf[i], scored, n)
  }

  /** Entry slots come first, in ranking order; seeds fill the rest. */
  predicate SlotsOrdered(buf: seq<Slot>) {
    |buf| == 3 && forall i, j :: 0 <= i < j < 3 && buf[j] != Seed ==> buf[i] != Seed && Before(buf[i], buf[j])
  }

  /** Every one of the first `n` entries that is left out ranks after every slot. */
  predicate LeftOutRankLower(buf: seq<Slot>, scored: seq<Candidate>, n: int) {
    |buf| == 3 && 0 <= n <= |scored|
    && forall k :: 0 <= k < n && !InBuffer(buf, k) ==>
         forall i :: 0 <= i < 3 ==> Before(buf[i], Slot(k, scored[k].command, scored[k].score))
  }

  /** The buffer after scanning the first `n` candidates. */
  predicate Ranked(buf: seq<Slot>, scored: seq<Candidate>, n: int)
  {
    && |buf| == 3 && 0 <= n <= |scored|
    && SlotsHold(buf, scored, n)
    && SlotsOrdered(buf)
    && LeftOutRankLower(buf, scored, n)
  }

  /** The entry being scanned as a slot. */
  function Entering(scored: seq<Candidate>, n: int): Slot
    requires 0 <= n < |scored|
  {
    Slot(n, scored[n].command, scored[n].score)
  }

  lemma InsertHolds(buf: seq<Slot>, scored: seq<Candidate>, n: int)
    requires Ranked(buf, scored, n) && n < |scored|
    ensures SlotsHold(Insert(buf, Entering(scored, n)), scored, n + 1)
  {
    var x := Entering(scored, n);
    assert Seed.score == -1.0;
    assert x.score > buf[2].score ==> x.score > -1.0;
  }

  lemma InsertOrdered(buf: seq<Slot>, scored: seq<Candidate>, n: int)
    requires Ranked(buf, scored, n) && n < |scored|
    ensures SlotsOrdered(Insert(buf, Entering(scored, n)))
  {
    var x := Entering(scored, n);
    assert Seed.score == -1.0;
    assert forall i :: 0 <= i < 3 && buf[i] != Seed ==> buf[i].pos < n && buf[i].score > -1.0;
  }

  lemma InsertLeftOut(buf: seq<Slot>, scored: seq<Candidate>, n: int)
    requires Ranked(buf, scored, n) && n < |scored|
    ensures LeftOutRankLower(Insert(buf, Entering(scored, n)), scored, n + 1)
  {
    var x := Entering(scored, n);
    var r := Insert(buf, x);
    assert Seed.score == -1.0;
    assert forall i :: 0 <= i < 3 && buf[i] != Seed ==> buf[i].pos < n;
    forall k | 0 <= k < n + 1 && !InBuffer(r, k)
      ensures forall i :: 0 <= i < 3 ==> Before(r[i], Slot(k, scored[k].command, scored[k].score))
    {
      var y := Slot(k, scored[k].command, scored[k].score);
      if k < n && !InBuffer(buf, k) {
        assert forall i :: 0 <= i < 3 ==> Before(buf[i], y);
      }
    }
  }

  lemma InsertKeepsRanked(buf: seq<Slot>, scored: seq<Candidate>, n: int)
    requires Ranked(buf, scored, n) && n < |scored|
    ensures Ranked(Insert(buf, Slot(n, scored[n].command, scored[n].score)), scored, n + 1)
  {
    InsertHolds(buf, scored, n);
    InsertOrdered(buf, scored, n);
    InsertLeftOut(buf, scored, n);
  }

  lemma {:induction false} TopRanked(scored: seq<Candidate>)
    ensures Ranked(Top(scored), scored, |scored|)
  {
    if |scored| > 0 {
      var n := |scored| - 1;
      var p := scored[..n];
      TopRanked(p);
      assert forall k :: 0 <= k < n ==> p[k] == scored[k];
      assert Ranked(Top(p), scored, n);
      InsertKeepsRanked(Top(p), scored, n);
    }
  }

  lemma RelevantStep(buf: seq<Slot>, r: seq<Slot>)
    requires |buf| > 0 && Relevant(buf[..|buf| - 1]) == r
    ensures Relevant(buf) == r + if buf[|buf| - 1].score > Threshold then [buf[|buf| - 1]] else []
  {
  }

  lemma RelevantOfThree(buf: seq<Slot>)
    requires |buf| == 3 && buf[0].score >= buf[1].score >= buf[2].score
    ensures Relevant(buf) ==
      if buf[2].score > Threshold then buf
      else if buf[1].score > Threshold then buf[..2]
      else if buf[0].score > Threshold then buf[..1]
      else []
  {
    var b1, b2 := buf[..1], buf[..2];
    assert b2[..1] == b1 && b1[..0] == [] && buf[..2] == b2;
    var r1 := [] + if buf[0].score > Threshold then [buf[0]] else [];
    var r2 := r1 + if buf[1].score > Threshold then [buf[1]] else [];
    var r3 := r2 + if buf[2].score > Threshold then [buf[2]] else [];
    RelevantStep(b1, []);
    RelevantStep(b2, r1);
    RelevantStep(buf, r2);
    assert Relevant(buf) == r3;
    if buf[2].score > Threshold {
      assert r3 == buf;
    } else if buf[1].score > Threshold {
      assert r3 == b2;
    } else if buf[0].score > Threshold {
      assert r3 == b1;
    } else {
      assert r3 == [];
    }
  }

  /**
   * What the search offers: at most three slots, each a real entry with its own
   * command and a score above 0.1, best first, equal scores in insertion order,
   * no entry twice.
   */
  lemma ChosenShape(scored: seq<Candidate>)
    ensures var c := Chosen(scored);
      |c| <= 3
      && (forall i :: 0 <= i < |c| ==> Holds(c[i], scored, |scored|) && c[i].score > Threshold)
      && (forall i, j :: 0 <= i < j < |c| ==> c[i].score >= c[j].score)
      && (forall i, j :: 0 <= i < j < |c| && c[i].score == c[j].score ==> c[i].pos < c[j].pos)
      && (forall i, j :: 0 <= i < j < |c| ==> c[i].pos != c[j].pos)
  {
    var t := Top(scored);
    TopRanked(scored);
    assert Seed.score == -1.0;
    RelevantOfThree(t);
  }

  /**
   * Nothing better is left out: an entry the search does not offer scores at
   * most 0.1, or all three places are taken by entries that rank before it
   * (higher score, or the same score and inserted earlier).
   */
  lemma ChosenOptimal(scored: seq<Candidate>, k: int)
    requires 0 <= k < |scored|
    requires forall i :: 0 <= i < |Chosen(scored)| ==> Chosen(scored)[i].pos != k
    ensures var c := Chosen(scored);
      scored[k].score <= Threshold
      || (|c| == 3 && forall i :: 0 <= i < 3 ==> Before(c[i], Slot(k, scored[k].command, scored[k].score)))
  {
    var t := Top(scored);
    var c := Chosen(scored);
    TopRanked(scored);
    assert Seed.score == -1.0;
    RelevantOfThree(t);
    var y := Slot(k, scored[k].command, scored[k].score);
    if scored[k].score > Threshold {
      assert forall i :: 0 <= i < 3 && t[i].pos == k ==> t[i].score == scored[k].score;
      assert forall i :: 0 <= i < |c| ==> c[i] == t[i];
      assert !InBuffer(t, k);
      assert forall i :: 0 <= i < 3 ==> Before(t[i], y);
    }
  }

  /** An entry scoring -1.0 or less never enters the buffer. */
  lemma LowScoresNeverEnter(scored: seq<Candidate>, k: int)
    requires 0 <= k < |scored| && scored[k].score <= -1.0
    ensures !InBuffer(Top(scored), k)
  {
    TopRanked(scored);
  }

  // ----- the loops of `handleSearchCommand` -----

  /**
   * The body of the scan for one entry: the inner `for i` loop with its
   * `for j` shift, on the three-element `topResults` array. The ghost `buf`
   * is the specification's view of the array.
   */
  method PlaceInTop(top: array<Candidate>, cand: Candidate, ghost buf: seq<Slot>, ghost pos: int)
    requires top.Length == 3 && |buf| == 3 && top[..] == Project(buf)
    modifies top
    ensures top[..] == Project(Insert(buf, Slot(pos, cand.command, cand.score)))
  {
    ghost var before := top[..];
    assert forall k :: 0 <= k < 3 ==> before[k].score == buf[k].score;
    var i := 0;
    while i < 3
      invariant 0 <= i <= 3
      invariant top[..] == before
      invariant forall k :: 0 <= k < i ==> !(cand.score > top[k].score)
    {
      if cand.score > top[i].score {
        var j := 2;
        while j > i
          invariant i <= j <= 2
          invariant forall m :: 0 <= m <= j ==> top[m] == before[m]
          invariant forall m :: j < m < 3 ==> top[m] == before[m - 1]
        {
          top[j] := top[j - 1];
          j := j - 1;
        }
        top[i] := cand;
        assert forall m :: 0 <= m < 3 ==>
          top[m] == if m < i then before[m] else if m == i then cand else before[m - 1];
        return;
      }
      i := i + 1;
    }
  }

  /**
   * Steps 2 and 3 of `handleSearchCommand`: the ranking scan over the
   * history and the relevance filter, over Go's `topResults` array.
   */
  method TopMatches(entries: seq<Entry>, query: seq<real>, similarity: (seq<real>, seq<real>) -> real)
    returns (valid: seq<Candidate>)
    ensures valid == Project(Chosen(Scored(entries, query, similarity)))
  {
    ghost var scored := Scored(entries, query, similarity);
    var top := new Candidate[3];
    for i := 0 to 3
      invariant forall k :: 0 <= k < i ==> top[k] == Candidate("", -1.0)
    {
      top[i] := Candidate("", -1.0);
    }
    assert top[..] == Project(Top(scored[..0]));
    for n := 0 to |entries|
      invariant top[..] == Project(Top(scored[..n]))
    {
      var entry := entries[n];
      var score := similarity(query, entry.embedding);
      PlaceInTop(top, Candidate(entry.command, score), Top(scored[..n]), n);
      assert scored[..n + 1][..n] == scored[..n];
    }
    assert scored[..|entries|] == scored;
    valid := KeepRelevant(top, Top(scored));
  }

  lemma ProjectSnoc(buf: seq<Slot>, x: Slot)
    ensures Project(buf + [x]) == Project(buf) + [Candidate(x.command, x.score)]
  {
  }

  /** Step 3 of `handleSearchCommand`: keep the results scoring above the threshold. */
  method KeepRelevant(top: array<Candidate>, ghost t: seq<Slot>) returns (valid: seq<Candidate>)
    requires top.Length == 3 && |t| == 3 && top[..] == Project(t)
    ensures |valid| <= 3
    ensures forall k :: 0 <= k < |valid| ==> valid[k].score > Threshold && valid[k] in top[..]
    ensures forall k :: 0 <= k < 3 && top[k].score > Threshold ==> top[k] in valid
    ensures valid == Project(Relevant(t))
  {
    valid := [];
    for i := 0 to 3
      invariant |valid| <= i
      invariant forall k :: 0 <= k < |valid| ==> valid[k].score > Threshold && valid[k] in top[..]
      invariant forall k :: 0 <= k < i && top[k].score > Threshold ==> top[k] in valid
      invariant valid == Project(Relevant(t[..i]))
    {
      assert t[..i + 1][..i] == t[..i];
      assert top[i] == Candidate(t[i].command, t[i].score);
      if top[i].score > Threshold {
        ProjectSnoc(Relevant(t[..i]), t[i]);
        valid := valid + [top[i]];
      } else {
        assert Relevant(t[..i + 1]) == Relevant(t[..i]) + [];
      }
    }
    assert t[..3] == t;
  }
}
