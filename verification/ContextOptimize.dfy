/** Exact deduplication, and truncation to a token budget. */
module ContextOptimize {
  import opened Filtering
  import opened Sorting
  import opened Wrappers
  import opened ContextBlocks
  import opened ContextOrdering

  /** Normalised content; the fingerprint digest is taken to tell different ones apart. */
  type Normal = string -> string

  function Fingerprint(norm: Normal, b: Counted): string {
    norm(b.block.content)
  }

  // ---------------------------------------------------------- deduplication

  ghost predicate SeenIn(norm: Normal, blocks: seq<Counted>, b: Counted) {
    exists e | e in blocks :: Fingerprint(norm, e) == Fingerprint(norm, b)
  }

  /** The first block of every fingerprint, in order. */
  ghost function Dedup(norm: Normal, blocks: seq<Counted>): seq<Counted> {
    if blocks == [] then []
    else
      var last := blocks[|blocks| - 1];
      var before := blocks[..|blocks| - 1];
      Dedup(norm, before) + if SeenIn(norm, before, last) then [] else [last]
  }

  /** The tokens of all later duplicates. */
  ghost function DuplicateTokens(norm: Normal, blocks: seq<Counted>): nat {
    if blocks == [] then 0
    else
      var last := blocks[|blocks| - 1];
      var before := blocks[..|blocks| - 1];
      DuplicateTokens(norm, before) + if SeenIn(norm, before, last) then last.tokens else 0
  }

  method Deduplicate(norm: Normal, blocks: seq<Counted>) returns (kept: seq<Counted>, removed: nat)
    ensures kept == Dedup(norm, blocks)
    ensures removed == DuplicateTokens(norm, blocks)
  {
    var seen: set<string> := {};
    kept, removed := [], 0;
    for i := 0 to |blocks|
      invariant seen == set e | e in blocks[..i] :: Fingerprint(norm, e)
      invariant kept == Dedup(norm, blocks[..i])
      invariant removed == DuplicateTokens(norm, blocks[..i])
    {
      var b := blocks[i];
      assert blocks[..i + 1] == blocks[..i] + [b];
      assert blocks[..i + 1][..i] == blocks[..i];
      var fingerprint := Fingerprint(norm, b);
      assert fingerprint in seen <==> SeenIn(norm, blocks[..i], b);
      if fingerprint in seen {
        assert kept + [] == kept;
        removed := removed + b.tokens;
      } else {
        seen := seen + {fingerprint};
        kept := kept + [b];
      }
    }
    assert blocks[..|blocks|] == blocks;
  }

  lemma {:induction false} DedupTokens(norm: Normal, blocks: seq<Counted>)
    ensures Tokens(Dedup(norm, blocks)) + DuplicateTokens(norm, blocks) == Tokens(blocks)
  {
    if blocks != [] {
      var n := |blocks| - 1;
      DedupTokens(norm, blocks[..n]);
      assert blocks == blocks[..n] + [blocks[n]];
      TokensConcat(blocks[..n], [blocks[n]]);
      TokensConcat(Dedup(norm, blocks[..n]), [blocks[n]]);
      assert Dedup(norm, blocks[..n]) + [] == Dedup(norm, blocks[..n]);
    }
  }

  lemma DedupStep(norm: Normal, before: seq<Counted>, b: Counted)
    ensures Dedup(norm, before + [b]) == Dedup(norm, before) + if SeenIn(norm, before, b) then [] else [b]
  {
    assert (before + [b])[..|before|] == before;
  }

  lemma SeenInMore(norm: Normal, before: seq<Counted>, last: Counted, b: Counted)
    ensures SeenIn(norm, before + [last], b) <==>
      SeenIn(norm, before, b) || Fingerprint(norm, last) == Fingerprint(norm, b)
  {
    assert last in before + [last];
  }

  /** Deduplication leaves a twin of every block. */
  lemma {:induction false} DedupKeepsTwins(norm: Normal, blocks: seq<Counted>, b: Counted)
    ensures SeenIn(norm, Dedup(norm, blocks), b) <==> SeenIn(norm, blocks, b)
  {
    if blocks != [] {
      var before, last := blocks[..|blocks| - 1], blocks[|blocks| - 1];
      assert blocks == before + [last];
      DedupKeepsTwins(norm, before, b);
      DedupKeepsTwins(norm, before, last);
      DedupStep(norm, before, last);
      SeenInMore(norm, before, last, b);
      SeenInMore(norm, Dedup(norm, before), last, b);
      if SeenIn(norm, before, last) && Fingerprint(norm, last) == Fingerprint(norm, b) {
        SameFingerprint(norm, before, last, b);
      }
      hide Dedup, SeenIn, Fingerprint;
      assert Dedup(norm, before) + [] == Dedup(norm, before);
    }
  }

  lemma SameFingerprint(norm: Normal, blocks: seq<Counted>, a: Counted, b: Counted)
    requires Fingerprint(norm, a) == Fingerprint(norm, b)
    ensures SeenIn(norm, blocks, a) <==> SeenIn(norm, blocks, b)
  {
  }

  /** A block survives deduplication if and only if no block before it is its twin. */
  lemma {:induction false} DedupKeepsFirst(norm: Normal, before: seq<Counted>, b: Counted, after: seq<Counted>)
    requires b !in before && b !in after
    ensures b in Dedup(norm, before + [b] + after) <==> !SeenIn(norm, before, b)
    decreases |after|
  {
    if after == [] {
      assert before + [b] + after == before + [b];
      DedupStep(norm, before, b);
      DedupHasNoTwins(norm, before);
    } else {
      var n := |after| - 1;
      assert before + [b] + after == (before + [b] + after[..n]) + [after[n]];
      DedupKeepsFirst(norm, before, b, after[..n]);
      DedupStep(norm, before + [b] + after[..n], after[n]);
    }
    hide Dedup, SeenIn;
  }

  lemma {:induction false} DedupHasNoTwins(norm: Normal, blocks: seq<Counted>)
    ensures forall b | b in Dedup(norm, blocks) :: b in blocks
    ensures forall i, j | 0 <= i < j < |Dedup(norm, blocks)| ::
      Fingerprint(norm, Dedup(norm, blocks)[i]) != Fingerprint(norm, Dedup(norm, blocks)[j])
    ensures |Dedup(norm, blocks)| <= |blocks|
  {
    if blocks != [] {
      hide Fingerprint;
      var n := |blocks| - 1;
      assert blocks == blocks[..n] + [blocks[n]];
      DedupHasNoTwins(norm, blocks[..n]);
      var d := Dedup(norm, blocks[..n]);
      forall i | 0 <= i < |d| ensures d[i] in blocks[..n] {
        assert d[i] in d;
      }
    }
  }

  /** Every fingerprint survives exactly once, in its first block. */
  lemma DedupMeaning(norm: Normal, blocks: seq<Counted>)
    ensures forall b | b in Dedup(norm, blocks) :: b in blocks
    ensures forall b | b in blocks :: SeenIn(norm, Dedup(norm, blocks), b)
    ensures forall i, j | 0 <= i < j < |Dedup(norm, blocks)| ::
      Fingerprint(norm, Dedup(norm, blocks)[i]) != Fingerprint(norm, Dedup(norm, blocks)[j])
    ensures |Dedup(norm, blocks)| <= |blocks|
  {
    DedupHasNoTwins(norm, blocks);
    forall b | b in blocks ensures SeenIn(norm, Dedup(norm, blocks), b) {
      DedupKeepsTwins(norm, blocks, b);
    }
  }

  /** Whatever blocks come in, no two that are left are equal. */
  lemma DedupDistinct(norm: Normal, blocks: seq<Counted>)
    ensures Distinct(Dedup(norm, blocks))
  {
    DedupMeaning(norm, blocks);
  }

  // ------------------------------------------------------------- truncation

  datatype ContextTooLarge = ContextTooLarge(required: nat, available: int)

  /** What a truncation returns: the blocks kept and the tokens dropped. */
  datatype Truncated = Truncated(kept: seq<Counted>, dropped: nat)

  /** Most important first, larger first among equals. */
  function DropKey(b: Counted): Key {
    Key(PriorityOrdinal(b.block.priority), 0 - b.tokens)
  }

  /** The droppable blocks a greedy pass takes, given what is used already. */
  function Greedy(candidates: seq<Counted>, used: nat, available: int): (taken: seq<Counted>)
    ensures forall b | b in taken :: b in candidates
  {
    if candidates == [] then []
    else if used + candidates[0].tokens <= available then
      [candidates[0]] + Greedy(candidates[1..], used + candidates[0].tokens, available)
    else Greedy(candidates[1..], used, available)
  }

  /** The tokens of the blocks the same pass passes over. */
  function GreedyDropped(candidates: seq<Counted>, used: nat, available: int): nat {
    if candidates == [] then 0
    else if used + candidates[0].tokens <= available then
      GreedyDropped(candidates[1..], used + candidates[0].tokens, available)
    else candidates[0].tokens + GreedyDropped(candidates[1..], used, available)
  }

  function Candidates(blocks: seq<Counted>): seq<Counted> {
    StableSort(DropKey, Filter(blocks, Droppable))
  }

  function RequiredBlocks(blocks: seq<Counted>): seq<Counted> {
    Filter(blocks, Not(Droppable))
  }

  function RequiredTokens(blocks: seq<Counted>): nat {
    Tokens(RequiredBlocks(blocks))
  }

  function Taken(blocks: seq<Counted>, available: int): seq<Counted> {
    Greedy(Candidates(blocks), RequiredTokens(blocks), available)
  }

  /** Blocks are kept by the id of a required block, or by being equal to a taken one. */
  function KeptBy(required: seq<Counted>, taken: seq<Counted>): Counted -> bool {
    (b: Counted) => (exists r | r in required :: r.block.id == b.block.id) || b in taken
  }

  function Kept(blocks: seq<Counted>, available: int): seq<Counted> {
    Filter(blocks, KeptBy(RequiredBlocks(blocks), Taken(blocks, available)))
  }

  function Truncate(blocks: seq<Counted>, available: int): Result<Truncated, ContextTooLarge> {
    if RequiredTokens(blocks) > available then Failure(ContextTooLarge(RequiredTokens(blocks), available))
    else Success(Truncated(Kept(blocks, available),
                           GreedyDropped(Candidates(blocks), RequiredTokens(blocks), available)))
  }

  method TruncateToBudget(blocks: seq<Counted>, available: int) returns (r: Result<Truncated, ContextTooLarge>)
    ensures r == Truncate(blocks, available)
  {
    var required := Filter(blocks, Not(Droppable));
    var requiredTokens := Tokens(required);
    if requiredTokens > available {
      return Failure(ContextTooLarge(requiredTokens, available));
    }
    var droppable := StableSort(DropKey, Filter(blocks, Droppable));
    var keptDroppable, dropped := TakeWhatFits(droppable, requiredTokens, available);
    return Success(Truncated(Filter(blocks, KeptBy(required, keptDroppable)), dropped));
  }

  method TakeWhatFits(droppable: seq<Counted>, requiredTokens: nat, available: int)
    returns (kept: seq<Counted>, dropped: nat)
    ensures kept == Greedy(droppable, requiredTokens, available)
    ensures dropped == GreedyDropped(droppable, requiredTokens, available)
  {
    var used: nat := requiredTokens;
    kept, dropped := [], 0;
    for i := 0 to |droppable|
      invariant kept + Greedy(droppable[i..], used, available) == Greedy(droppable, requiredTokens, available)
      invariant dropped + GreedyDropped(droppable[i..], used, available)
             == GreedyDropped(droppable, requiredTokens, available)
    {
      var b := droppable[i];
      assert droppable[i..][0] == b && droppable[i..][1..] == droppable[i + 1..];
      if used + b.tokens <= available {
        assert kept + ([b] + Greedy(droppable[i + 1..], used + b.tokens, available))
            == (kept + [b]) + Greedy(droppable[i + 1..], used + b.tokens, available);
        kept := kept + [b];
        used := used + b.tokens;
      } else {
        dropped := dropped + b.tokens;
      }
    }
    assert kept + [] == kept;
  }

  // ------------------------------------------------- what the greedy pass takes

  predicate Among(taken: seq<Counted>, b: Counted) {
    b in taken
  }

  function IsAmong(taken: seq<Counted>): Counted -> bool {
    b => Among(taken, b)
  }

  lemma {:induction false} GreedyTokens(candidates: seq<Counted>, used: nat, available: int)
    ensures Tokens(Greedy(candidates, used, available)) + GreedyDropped(candidates, used, available)
         == Tokens(candidates)
    ensures used <= available ==> used + Tokens(Greedy(candidates, used, available)) <= available
  {
    if candidates != [] {
      if used + candidates[0].tokens <= available {
        GreedyTokens(candidates[1..], used + candidates[0].tokens, available);
        TokensConcat([candidates[0]], Greedy(candidates[1..], used + candidates[0].tokens, available));
      } else {
        GreedyTokens(candidates[1..], used, available);
      }
    }
  }

  /** A candidate that was passed over does not fit behind everything that was taken. */
  lemma {:induction false} GreedyMaximal(candidates: seq<Counted>, used: nat, available: int, b: Counted)
    requires b in candidates && b !in Greedy(candidates, used, available)
    ensures used + Tokens(Greedy(candidates, used, available)) + b.tokens > available
  {
    if used + candidates[0].tokens <= available {
      GreedyMaximal(candidates[1..], used + candidates[0].tokens, available, b);
      TokensConcat([candidates[0]], Greedy(candidates[1..], used + candidates[0].tokens, available));
    } else if b != candidates[0] || b in candidates[1..] {
      GreedyMaximal(candidates[1..], used, available, b);
    }
  }

  /** Selecting the taken blocks from candidates no two of which are equal gives them back. */
  lemma {:induction false} GreedyIsSelection(candidates: seq<Counted>, used: nat, available: int)
    requires Distinct(candidates)
    ensures var taken := Greedy(candidates, used, available); Filter(candidates, IsAmong(taken)) == taken
  {
    if candidates != [] {
      var b, rest := candidates[0], candidates[1..];
      forall x | x in rest ensures x != b {
        var j :| 0 <= j < |rest| && rest[j] == x;
        assert candidates[1 + j] == x;
      }
      var taken := Greedy(candidates, used, available);
      if used + b.tokens <= available {
        var others := Greedy(rest, used + b.tokens, available);
        GreedyIsSelection(rest, used + b.tokens, available);
        FilterAgree(rest, IsAmong(taken), IsAmong(others));
      } else {
        GreedyIsSelection(rest, used, available);
      }
    }
  }

  // ------------------------------------------------------- what truncation keeps

  /** A block that costs nothing is always taken. */
  lemma {:induction false} FreeIsTaken(candidates: seq<Counted>, used: nat, available: int, b: Counted)
    requires b in candidates && b.tokens == 0 && used <= available
    ensures b in Greedy(candidates, used, available)
  {
    if b != candidates[0] {
      if used + candidates[0].tokens <= available {
        FreeIsTaken(candidates[1..], used + candidates[0].tokens, available, b);
      } else {
        FreeIsTaken(candidates[1..], used, available, b);
      }
    }
  }

  /** When truncation succeeds and shared ids are harmless, a block is kept exactly when it is required or was taken. */
  lemma KeptExactly(blocks: seq<Counted>, available: int, b: Counted)
    requires HarmlessIds(blocks) && b in blocks
    ensures Truncate(blocks, available).Success? ==>
      (b in Truncate(blocks, available).value.kept <==> !Droppable(b) || b in Taken(blocks, available))
  {
    if RequiredTokens(blocks) <= available && Droppable(b) && b.tokens == 0 {
      assert b in Candidates(blocks);
      FreeIsTaken(Candidates(blocks), RequiredTokens(blocks), available, b);
    }
  }

  /** The required blocks are always among the kept ones, in their order. */
  lemma KeptRequired(blocks: seq<Counted>, available: int)
    ensures Filter(Kept(blocks, available), Not(Droppable)) == RequiredBlocks(blocks)
  {
    var keep := KeptBy(RequiredBlocks(blocks), Taken(blocks, available));
    forall b | b in blocks ensures Both(keep, Not(Droppable))(b) == Not(Droppable)(b) {
      assert Not(Droppable)(b) ==> b in RequiredBlocks(blocks);
    }
    FilterTwice(blocks, keep, Not(Droppable));
    FilterAgree(blocks, Both(keep, Not(Droppable)), Not(Droppable));
  }

  lemma KeptDroppable(blocks: seq<Counted>, available: int)
    requires Distinct(blocks) && HarmlessIds(blocks) && RequiredTokens(blocks) <= available
    ensures Tokens(Filter(Kept(blocks, available), Droppable)) == Tokens(Taken(blocks, available))
  {
    hide Distinct;
    var taken := Taken(blocks, available);
    var keep := KeptBy(RequiredBlocks(blocks), taken);
    forall b | b in blocks ensures Both(keep, Droppable)(b) == Both(Droppable, IsAmong(taken))(b) {
      KeptExactly(blocks, available, b);
    }
    FilterTwice(blocks, keep, Droppable);
    FilterAgree(blocks, Both(keep, Droppable), Both(Droppable, IsAmong(taken)));
    FilterTwice(blocks, Droppable, IsAmong(taken));
    FilterDistinct(blocks, Droppable);
    SortDistinct(DropKey, Filter(blocks, Droppable));
    SortTokens(DropKey, Filter(blocks, Droppable), IsAmong(taken));
    GreedyIsSelection(Candidates(blocks), RequiredTokens(blocks), available);
  }

  lemma KeptTokens(blocks: seq<Counted>, available: int)
    requires Distinct(blocks) && HarmlessIds(blocks) && RequiredTokens(blocks) <= available
    ensures Tokens(Kept(blocks, available)) == RequiredTokens(blocks) + Tokens(Taken(blocks, available))
  {
    hide Distinct, HarmlessIds, Kept, Taken;
    FilterSplitsTokens(Kept(blocks, available), Droppable);
    KeptRequired(blocks, available);
    KeptDroppable(blocks, available);
  }

  /**
    Truncation, while shared ids are harmless: it fails if and only if the required blocks alone
    exceed the allowance; otherwise it keeps them all in order, fits the allowance, accounts for
    every token, and no block it dropped would still have fitted. No two blocks are equal, as
    deduplication leaves them.
   */
  lemma TruncationMeaning(blocks: seq<Counted>, available: int)
    requires Distinct(blocks) && HarmlessIds(blocks)
    ensures Truncate(blocks, available).Failure? <==> RequiredTokens(blocks) > available
    ensures Truncate(blocks, available).Success? ==>
      var t := Truncate(blocks, available).value;
      && Subsequence(t.kept, blocks)
      && (forall b | b in blocks && !Droppable(b) :: b in t.kept)
      && Tokens(t.kept) <= available
      && Tokens(t.kept) + t.dropped == Tokens(blocks)
      && (forall b | b in blocks && b !in t.kept :: Tokens(t.kept) + b.tokens > available)
  {
    if RequiredTokens(blocks) <= available {
      KeptTokens(blocks, available);
      GreedyTokens(Candidates(blocks), RequiredTokens(blocks), available);
      FilterSplitsTokens(blocks, Droppable);
      SortTokensAll(DropKey, Filter(blocks, Droppable));
      forall b | b in blocks
        ensures !Droppable(b) ==> b in Kept(blocks, available)
        ensures b !in Kept(blocks, available) ==> Tokens(Kept(blocks, available)) + b.tokens > available
      {
        KeptExactly(blocks, available, b);
        if b !in Kept(blocks, available) {
          GreedyMaximal(Candidates(blocks), RequiredTokens(blocks), available, b);
        }
      }
    }
  }

  lemma {:induction false} SortTokensAll(key: KeyOf, blocks: seq<Counted>)
    ensures Tokens(StableSort(key, blocks)) == Tokens(blocks)
  {
    var all := (b: Counted) => true;
    SortTokens(key, blocks, all);
    FilterAllOrNone(blocks, all);
    FilterAllOrNone(StableSort(key, blocks), all);
  }

  // ------------------------------------------------------ who can displace whom

  /** `x` sits between `front` and `back` as a stable sort of `a`, then `x`, then `b` would have it. */
  ghost predicate Between(
      key: KeyOf, front: seq<Counted>, x: Counted, back: seq<Counted>, a: seq<Counted>, b: seq<Counted>) {
    && (forall e | e in front :: KeyAtMost(key(e), key(x)) && (key(e) == key(x) ==> e in a))
    && (forall e | e in back :: KeyAtMost(key(x), key(e)) && (key(e) == key(x) ==> e in b))
  }

  /** Where a sort puts one more block: the others keep their order around it. */
  lemma {:induction false} SortOneMore(key: KeyOf, a: seq<Counted>, x: Counted, b: seq<Counted>)
    returns (front: seq<Counted>, back: seq<Counted>)
    ensures StableSort(key, a + [x] + b) == front + [x] + back
    ensures StableSort(key, a + b) == front + back
    ensures Between(key, front, x, back, a, b)
  {
    if a == [] {
      assert a + [x] + b == [x] + b && ([x] + b)[1..] == b && a + b == b;
      SortSorts(key, b);
      front, back := InsertSplit(key, x, StableSort(key, b));
    } else {
      var rest := a[1..];
      assert (a + [x] + b)[1..] == rest + [x] + b && (a + b)[1..] == rest + b;
      var front', back' := SortOneMore(key, rest, x, b);
      SortSorts(key, rest + [x] + b);
      front, back := InsertAround(key, a[0], front', x, back');
    }
  }

  /** Inserting at the front of its equals. */
  lemma {:induction false} InsertSplit(key: KeyOf, x: Counted, sorted: seq<Counted>)
    returns (front: seq<Counted>, back: seq<Counted>)
    requires SortedBy(key, sorted)
    ensures Insert(By(key), x, sorted) == front + [x] + back && sorted == front + back
    ensures Between(key, front, x, back, [], sorted)
  {
    if sorted == [] || KeyAtMost(key(x), key(sorted[0])) {
      front, back := [], sorted;
      assert [] + [x] + sorted == [x] + sorted;
      forall e | e in sorted ensures KeyAtMost(key(x), key(e)) {
        var j :| 0 <= j < |sorted| && sorted[j] == e;
      }
    } else {
      var front', back' := InsertSplit(key, x, sorted[1..]);
      front, back := [sorted[0]] + front', back';
      assert front + [x] + back == [sorted[0]] + (front' + [x] + back);
      assert front + back == [sorted[0]] + (front' + back);
    }
  }

  lemma InsertBeside(key: KeyOf, y: Counted, x: Counted, back: seq<Counted>)
    returns (front': seq<Counted>, back': seq<Counted>)
    requires SortedBy(key, [x] + back)
    ensures Insert(By(key), y, [x] + back) == front' + [x] + back'
    ensures Insert(By(key), y, back) == front' + back'
    ensures KeyAtMost(key(y), key(x)) ==> front' == [y] && back' == back
    ensures !KeyAtMost(key(y), key(x)) ==> front' == [] && forall e | e in back' :: e == y || e in back
  {
    var sorted := [x] + back;
    assert sorted[1..] == back;
    if KeyAtMost(key(y), key(x)) {
      front', back' := [y], back;
      assert back != [] ==> sorted[1] == back[0];
      assert [y] + [x] + back == [y] + sorted;
    } else {
      front', back' := [], Insert(By(key), y, back);
      assert [] + [x] + back' == [x] + back' && [] + back' == back';
    }
  }

  /** Inserting `y` into a sequence with and without `x` puts it in corresponding places. */
  lemma {:induction false} InsertAround(key: KeyOf, y: Counted, front: seq<Counted>, x: Counted, back: seq<Counted>)
    returns (front': seq<Counted>, back': seq<Counted>)
    requires SortedBy(key, front + [x] + back)
    ensures Insert(By(key), y, front + [x] + back) == front' + [x] + back'
    ensures Insert(By(key), y, front + back) == front' + back'
    ensures KeyAtMost(key(y), key(x)) ==> (forall e | e in front' :: e == y || e in front) && back' == back
    ensures !KeyAtMost(key(y), key(x)) ==> front' == front && forall e | e in back' :: e == y || e in back
  {
    if front == [] {
      assert [] + [x] + back == [x] + back && [] + back == back;
      front', back' := InsertBeside(key, y, x, back);
    } else {
      SortedTail(key, front, x, back);
      hide SortedBy;
      var rest := front[1..];
      assert front + [x] + back == [front[0]] + (rest + [x] + back) && front + back == [front[0]] + (rest + back);
      if KeyAtMost(key(y), key(front[0])) {
        front', back' := [y] + front, back;
        assert [y] + (front + [x] + back) == front' + [x] + back && [y] + (front + back) == front' + back;
      } else {
        var rest';
        rest', back' := InsertAround(key, y, rest, x, back);
        front' := [front[0]] + rest';
        assert front' + [x] + back' == [front[0]] + (rest' + [x] + back');
        assert front' + back' == [front[0]] + (rest' + back');
      }
    }
  }

  lemma SortedTail(key: KeyOf, front: seq<Counted>, x: Counted, back: seq<Counted>)
    requires front != [] && SortedBy(key, front + [x] + back)
    ensures SortedBy(key, front[1..] + [x] + back) && KeyAtMost(key(front[0]), key(x))
  {
    var sorted := front + [x] + back;
    assert sorted[0] == front[0] && sorted[|front|] == x;
    assert front[1..] + [x] + back == sorted[1..];
  }

  lemma {:induction false} GreedyAppend(front: seq<Counted>, back: seq<Counted>, used: nat, available: int)
    ensures var taken := Greedy(front, used, available);
      Greedy(front + back, used, available) == taken + Greedy(back, used + Tokens(taken), available)
  {
    if front == [] {
      assert front + back == back;
    } else {
      var taken := Greedy(front, used, available);
      assert (front + back)[1..] == front[1..] + back;
      if used + front[0].tokens <= available {
        GreedyAppend(front[1..], back, used + front[0].tokens, available);
        TokensConcat([front[0]], taken[1..]);
        assert taken == [front[0]] + taken[1..];
      } else {
        GreedyAppend(front[1..], back, used, available);
      }
    }
  }

  /** What is taken from a front does not depend on what comes behind it. */
  lemma TakenFromFront(front: seq<Counted>, back: seq<Counted>, used: nat, available: int, e: Counted)
    requires e !in back
    ensures e in Greedy(front + back, used, available) <==> e in Greedy(front, used, available)
  {
    GreedyAppend(front, back, used, available);
  }

  /** Required before High before Normal before Low before Optional. */
  ghost predicate MoreImportant(a: Priority, b: Priority) {
    match a
    case Required => b != Required
    case High => b in {Normal, Low, Optional}
    case Normal => b in {Low, Optional}
    case Low => b == Optional
    case Optional => false
  }

  /** `d` goes before `e`: more important, or as important and larger, or as large and earlier, being in `before`. */
  ghost predicate GoesBefore(d: Counted, before: seq<Counted>, e: Counted) {
    || MoreImportant(d.block.priority, e.block.priority)
    || (d.block.priority == e.block.priority && d.tokens > e.tokens)
    || (d.block.priority == e.block.priority && d.tokens == e.tokens && d in before)
  }

  ghost function Before(before: seq<Counted>, e: Counted): Counted -> bool {
    (d: Counted) => GoesBefore(d, before, e)
  }

  lemma GoesBeforeIsKey(d: Counted, before: seq<Counted>, e: Counted)
    ensures GoesBefore(d, before, e) <==>
      KeyAtMost(DropKey(d), DropKey(e)) && (DropKey(d) == DropKey(e) ==> d in before)
  {
  }

  lemma DistinctApart(a: seq<Counted>, x: Counted, b: seq<Counted>, e: Counted)
    requires Distinct(a + [x] + b)
    ensures (e in a ==> e !in b) && x !in a && x !in b
  {
    var all := a + [x] + b;
    assert forall i | 0 <= i < |a| :: all[i] == a[i];
    assert forall j | 0 <= j < |b| :: all[|a| + 1 + j] == b[j];
    assert all[|a|] == x;
    forall i | 0 <= i < |a| ensures a[i] != x && a[i] !in b {
      assert all[i] != all[|a|];
    }
    forall j | 0 <= j < |b| ensures b[j] != x {
      assert all[|a|] != all[|a| + 1 + j];
    }
  }

  lemma KeptReasons(blocks: seq<Counted>, available: int, b: Counted)
    requires b in blocks
    ensures b in Kept(blocks, available) <==>
      ((exists r | r in RequiredBlocks(blocks) :: r.block.id == b.block.id) || b in Taken(blocks, available))
  {
  }

  /**
    Nobody is displaced by a block that is considered later: adding a droppable block `x` anywhere
    changes no decision on a block considered before it.
   */
  lemma LaterBlocksDoNotMatter(a: seq<Counted>, x: Counted, b: seq<Counted>, available: int, e: Counted)
    requires Distinct(a + [x] + b) && Droppable(x) && e in a + b && GoesBefore(e, a, x)
    ensures Truncate(a + [x] + b, available).Failure? <==> Truncate(a + b, available).Failure?
    ensures e in Kept(a + [x] + b, available) <==> e in Kept(a + b, available)
  {
    hide Kept, StableSort, Greedy, Filter, GoesBefore;
    FilterOneMore(a, x, b, Not(Droppable));
    assert Filter(a, Not(Droppable)) + [] + Filter(b, Not(Droppable))
        == Filter(a, Not(Droppable)) + Filter(b, Not(Droppable));
    KeptReasons(a + [x] + b, available, e);
    KeptReasons(a + b, available, e);
    if Droppable(e) {
      TakenRegardless(a, x, b, RequiredTokens(a + b), available, e);
    }
  }

  lemma TakenRegardless(a: seq<Counted>, x: Counted, b: seq<Counted>, used: nat, available: int, e: Counted)
    requires Distinct(a + [x] + b) && Droppable(x) && Droppable(e) && e in a + b && GoesBefore(e, a, x)
    ensures e in Greedy(Candidates(a + [x] + b), used, available) <==> e in Greedy(Candidates(a + b), used, available)
  {
    hide StableSort, Greedy, Distinct, Filter, GoesBefore;
    GoesBeforeIsKey(e, a, x);
    var fa, fb := Filter(a, Droppable), Filter(b, Droppable);
    FilterOneMore(a, x, b, Droppable);
    var front, back := SortOneMore(DropKey, fa, x, fb);
    DistinctApart(a, x, b, e);
    assert front + [x] + back == front + ([x] + back);
    assert e !in [x] + back;
    TakenFromFront(front, [x] + back, used, available, e);
    TakenFromFront(front, back, used, available, e);
  }

  lemma FilterOneMore(a: seq<Counted>, x: Counted, b: seq<Counted>, keep: Counted -> bool)
    ensures Filter(a + [x] + b, keep) == Filter(a, keep) + (if keep(x) then [x] else []) + Filter(b, keep)
    ensures Filter(a + b, keep) == Filter(a, keep) + Filter(b, keep)
  {
    FilterConcat(a + [x], b, keep);
    FilterConcat(a, [x], keep);
    FilterConcat(a, b, keep);
    FilterAllOrNone([x], keep);
  }

  // ------------------------------------------------------- who goes first

  /** The greedy pass splits at `e` into the candidates that go before it and those that do not. */
  lemma CandidatesAround(a: seq<Counted>, e: Counted, b: seq<Counted>)
    returns (front: seq<Counted>, back: seq<Counted>)
    requires Distinct(a + [e] + b) && Droppable(e)
    ensures Candidates(a + [e] + b) == front + [e] + back
    ensures forall d | d in front :: GoesBefore(d, a, e)
    ensures forall d | d in back :: !GoesBefore(d, a, e)
    ensures !GoesBefore(e, a, e) && e !in front && e !in back
  {
    hide StableSort, Filter, DropKey, GoesBefore, Distinct;
    FilterOneMore(a, e, b, Droppable);
    front, back := SortOneMore(DropKey, Filter(a, Droppable), e, Filter(b, Droppable));
    forall d | d in front || d in back || d == e
      ensures d in front ==> d != e && GoesBefore(d, a, e)
      ensures d in back ==> d != e && !GoesBefore(d, a, e)
      ensures d == e ==> !GoesBefore(d, a, e)
    {
      GoesBeforeIsKey(d, a, e);
      DistinctApart(a, e, b, d);
    }
  }

  /** Whether the pass takes `e` is decided by what it took before. */
  lemma TakenOnItsTurn(front: seq<Counted>, e: Counted, back: seq<Counted>, used: nat, available: int)
    requires e !in front && e !in back
    ensures e in Greedy(front + [e] + back, used, available)
       <==> used + Tokens(Greedy(front, used, available)) + e.tokens <= available
  {
    GreedyAppend(front, [e] + back, used, available);
    assert front + [e] + back == front + ([e] + back);
    assert ([e] + back)[1..] == back;
    hide Tokens;
  }

  /** The taken ones among the candidates in front are what the pass takes of these alone. */
  lemma TakenInFront(front: seq<Counted>, back: seq<Counted>, used: nat, available: int)
    requires Distinct(front + back)
    ensures Filter(front, IsAmong(Greedy(front + back, used, available))) == Greedy(front, used, available)
  {
    FrontDistinct(front, back);
    hide Distinct;
    var first, taken := Greedy(front, used, available), Greedy(front + back, used, available);
    forall d | d in front ensures IsAmong(taken)(d) == IsAmong(first)(d) {
      TakenFromFront(front, back, used, available, d);
    }
    hide Greedy;
    FilterAgree(front, IsAmong(taken), IsAmong(first));
    GreedyIsSelection(front, used, available);
  }

  /** Of the candidates, those that were taken and go before `e` are what the pass took before it came to `e`. */
  lemma TakenBefore(a: seq<Counted>, e: Counted, front: seq<Counted>, back: seq<Counted>, used: nat, available: int)
    requires Distinct(front + [e] + back)
    requires forall d | d in front :: GoesBefore(d, a, e)
    requires forall d | d in [e] + back :: !GoesBefore(d, a, e)
    ensures var candidates := front + [e] + back;
      Filter(candidates, Both(IsAmong(Greedy(candidates, used, available)), Before(a, e)))
        == Greedy(front, used, available)
  {
    hide GoesBefore, Greedy, Filter, Distinct, Among;
    var rest := [e] + back;
    assert front + [e] + back == front + rest;
    TakenInFront(front, rest, used, available);
    var among := IsAmong(Greedy(front + rest, used, available));
    var both := Both(among, Before(a, e));
    FilterConcat(front, rest, both);
    FilterAllOrNone(rest, both);
    FilterAgree(front, both, among);
    assert Filter(front, both) + [] == Filter(front, both);
  }

  lemma CandidatesDistinct(blocks: seq<Counted>)
    requires Distinct(blocks)
    ensures Distinct(Candidates(blocks))
  {
    FilterDistinct(blocks, Droppable);
    SortDistinct(DropKey, Filter(blocks, Droppable));
  }

  lemma FrontDistinct(front: seq<Counted>, back: seq<Counted>)
    requires Distinct(front + back)
    ensures Distinct(front) && forall d | d in front :: d !in back
  {
    var all := front + back;
    assert forall i | 0 <= i < |front| :: all[i] == front[i];
    assert forall j | 0 <= j < |back| :: all[|front| + j] == back[j];
  }

  lemma RequiredBefore(blocks: seq<Counted>, available: int, a: seq<Counted>, e: Counted)
    requires Droppable(e)
    ensures Filter(Filter(Kept(blocks, available), Before(a, e)), Not(Droppable)) == RequiredBlocks(blocks)
  {
    hide Taken;
    var keep := KeptBy(RequiredBlocks(blocks), Taken(blocks, available));
    FilterTwice(blocks, keep, Before(a, e));
    FilterTwice(blocks, Both(keep, Before(a, e)), Not(Droppable));
    forall d | d in blocks ensures Both(Both(keep, Before(a, e)), Not(Droppable))(d) == Not(Droppable)(d) {
      assert Not(Droppable)(d) ==> d in RequiredBlocks(blocks);
    }
    FilterAgree(blocks, Both(Both(keep, Before(a, e)), Not(Droppable)), Not(Droppable));
  }

  lemma DroppableBefore(blocks: seq<Counted>, available: int, a: seq<Counted>, e: Counted)
    requires HarmlessIds(blocks) && RequiredTokens(blocks) <= available
    ensures Tokens(Filter(Filter(Kept(blocks, available), Before(a, e)), Droppable))
         == Tokens(Filter(Candidates(blocks), Both(IsAmong(Taken(blocks, available)), Before(a, e))))
  {
    hide Taken, RequiredTokens, GoesBefore, Droppable;
    var keep, before := KeptBy(RequiredBlocks(blocks), Taken(blocks, available)), Before(a, e);
    var both := Both(IsAmong(Taken(blocks, available)), before);
    FilterTwice(blocks, keep, before);
    FilterTwice(blocks, Both(keep, before), Droppable);
    forall d | d in blocks ensures Both(Both(keep, before), Droppable)(d) == Both(Droppable, both)(d) {
      KeptExactly(blocks, available, d);
    }
    FilterAgree(blocks, Both(Both(keep, before), Droppable), Both(Droppable, both));
    FilterTwice(blocks, Droppable, both);
    SortTokens(DropKey, Filter(blocks, Droppable), both);
  }

  /** What is kept and goes before `e`: all required blocks, and what the pass took before it came to `e`. */
  lemma TokensBefore(blocks: seq<Counted>, available: int, a: seq<Counted>, e: Counted)
    requires HarmlessIds(blocks) && RequiredTokens(blocks) <= available && Droppable(e)
    ensures Tokens(Filter(Kept(blocks, available), Before(a, e)))
         == RequiredTokens(blocks)
            + Tokens(Filter(Candidates(blocks), Both(IsAmong(Taken(blocks, available)), Before(a, e))))
  {
    RequiredBefore(blocks, available, a, e);
    DroppableBefore(blocks, available, a, e);
    hide Taken, Kept, Candidates, Filter, Tokens, HarmlessIds, Droppable;
    FilterSplitsTokens(Filter(Kept(blocks, available), Before(a, e)), Droppable);
  }

  /**
    Who is kept, with the order of precedence spelled out: when truncation succeeds, a block that is not
    required is kept if and only if it fits behind the kept blocks that go before it.
   */
  lemma KeptInPrecedence(a: seq<Counted>, e: Counted, b: seq<Counted>, available: int)
    requires Distinct(a + [e] + b) && HarmlessIds(a + [e] + b) && e.block.priority != Required
    ensures var t := Truncate(a + [e] + b, available);
      t.Success? ==>
        (e in t.value.kept <==> Tokens(Filter(t.value.kept, Before(a, e))) + e.tokens <= available)
  {
    hide Distinct, HarmlessIds, RequiredTokens, Tokens, Kept, Candidates, GoesBefore, Filter;
    var blocks := a + [e] + b;
    assert Droppable(e) && e in blocks;
    if RequiredTokens(blocks) <= available {
      var front, back := CandidatesAround(a, e, b);
      CandidatesDistinct(blocks);
      TakenBefore(a, e, front, back, RequiredTokens(blocks), available);
      TakenOnItsTurn(front, e, back, RequiredTokens(blocks), available);
      TokensBefore(blocks, available, a, e);
      KeptExactly(blocks, available, e);
    }
  }

  lemma {:induction false} TokensMonotone(blocks: seq<Counted>, few: Counted -> bool, many: Counted -> bool)
    requires forall d | d in blocks && few(d) :: many(d)
    ensures Tokens(Filter(blocks, few)) <= Tokens(Filter(blocks, many))
  {
    if blocks != [] {
      TokensMonotone(blocks[1..], few, many);
      TokensConcat(if few(blocks[0]) then [blocks[0]] else [], Filter(blocks[1..], few));
      TokensConcat(if many(blocks[0]) then [blocks[0]] else [], Filter(blocks[1..], many));
    }
  }

  lemma SplitAt(blocks: seq<Counted>, e: Counted) returns (a: seq<Counted>, b: seq<Counted>)
    requires e in blocks
    ensures blocks == a + [e] + b
  {
    var i :| 0 <= i < |blocks| && blocks[i] == e;
    a, b := blocks[..i], blocks[i + 1..];
  }

  /** A block is never kept while a more important one that is no larger is dropped. */
  lemma ImportanceRespected(blocks: seq<Counted>, available: int, x: Counted, y: Counted)
    requires Distinct(blocks) && HarmlessIds(blocks) && x in blocks && y in blocks
    requires MoreImportant(x.block.priority, y.block.priority) && x.tokens <= y.tokens
    ensures var t := Truncate(blocks, available);
      t.Success? && y in t.value.kept ==> x in t.value.kept
  {
    hide Distinct, HarmlessIds, Truncate, Tokens, Filter;
    if x.block.priority == Required {
      TruncationMeaning(blocks, available);
    } else {
      var a, b := SplitAt(blocks, x);
      var c, d := SplitAt(blocks, y);
      KeptInPrecedence(a, x, b, available);
      KeptInPrecedence(c, y, d, available);
      if Truncate(blocks, available).Success? {
        TokensMonotone(Truncate(blocks, available).value.kept, Before(a, x), Before(c, y));
      }
    }
  }

  // ---------------------------------------------------------- repeated ids

  /** The result fits the allowance and accounts for every token. */
  predicate Accounted(blocks: seq<Counted>, available: int) {
    match Truncate(blocks, available)
    case Failure(_) => true
    case Success(t) => Tokens(t.kept) <= available && Tokens(t.kept) + t.dropped == Tokens(blocks)
  }

  /**
    A droppable block that shares the id of a required one is kept with it whatever it costs: with
    just enough room for the required blocks the allowance is exceeded.
   */
  lemma SharedIdExceedsBudget(blocks: seq<Counted>, d: Counted, r: Counted)
    requires d in blocks && r in blocks && Droppable(d) && !Droppable(r) && d.tokens > 0 && d.block.id == r.block.id
    ensures var t := Truncate(blocks, RequiredTokens(blocks));
      t.Success? && d in t.value.kept && Tokens(t.value.kept) > RequiredTokens(blocks)
  {
    var available := RequiredTokens(blocks);
    var kept := Kept(blocks, available);
    assert r in RequiredBlocks(blocks);
    KeptReasons(blocks, available, d);
    FilterSplitsTokens(kept, Droppable);
    KeptRequired(blocks, available);
    TokensOfMember(Filter(kept, Droppable), d);
  }

  /**
    Truncation meets every allowance and loses no token if and only if no droppable block with
    tokens shares the id of a required one.
   */
  lemma TruncationExact(blocks: seq<Counted>)
    requires Distinct(blocks)
    ensures (forall available :: Accounted(blocks, available)) <==> HarmlessIds(blocks)
  {
    hide Truncate, Tokens, RequiredTokens;
    if HarmlessIds(blocks) {
      forall available ensures Accounted(blocks, available) {
        TruncationMeaning(blocks, available);
      }
    } else {
      var d, r :| d in blocks && r in blocks && Droppable(d) && !Droppable(r) && d.tokens > 0
        && d.block.id == r.block.id;
      SharedIdExceedsBudget(blocks, d, r);
      assert !Accounted(blocks, RequiredTokens(blocks));
    }
  }
}
