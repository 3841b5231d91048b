/** What a whole compilation guarantees: token accounting, and a prefix other turns cannot disturb. */
module ContextResults {
  import opened Filtering
  import opened Wrappers
  import opened ContextBlocks
  import opened ContextOrdering
  import opened ContextOptimize
  import opened ContextCompiler

  // -------------------------------------------------------------- accounting

  function SumOver(kinds: seq<ContextType>, byType: map<ContextType, nat>): nat
    requires forall k | k in kinds :: k in byType
  {
    if kinds == [] then 0 else byType[kinds[0]] + SumOver(kinds[1..], byType)
  }

  function KindIn(kinds: seq<ContextType>): Counted -> bool {
    (b: Counted) => b.block.kind in kinds
  }

  lemma {:induction false} SumOverKinds(blocks: seq<Counted>, kinds: seq<ContextType>)
    requires forall k | k in kinds :: k in AllTypes()
    requires forall i, j | 0 <= i < j < |kinds| :: kinds[i] != kinds[j]
    ensures SumOver(kinds, KindTokens(blocks)) == Tokens(Filter(blocks, KindIn(kinds)))
  {
    if kinds == [] {
      FilterAllOrNone(blocks, KindIn([]));
    } else {
      var first, rest := kinds[0], kinds[1..];
      SumOverKinds(blocks, rest);
      var either := Filter(blocks, KindIn(kinds));
      FilterSplitsTokens(either, OfKind(first));
      FilterTwice(blocks, KindIn(kinds), OfKind(first));
      FilterAgree(blocks, Both(KindIn(kinds), OfKind(first)), OfKind(first));
      FilterTwice(blocks, KindIn(kinds), Not(OfKind(first)));
      FilterAgree(blocks, Both(KindIn(kinds), Not(OfKind(first))), KindIn(rest));
    }
  }

  /** The ten types and the two halves of the split each account for every token kept. */
  lemma KeptTokensAddUp(blocks: seq<Counted>)
    ensures SumOver(AllTypes(), KindTokens(blocks)) == Tokens(blocks)
    ensures Tokens(Filter(blocks, InPrefix)) + Tokens(Filter(blocks, Not(InPrefix))) == Tokens(blocks)
  {
    SumOverKinds(blocks, AllTypes());
    forall b | b in blocks ensures KindIn(AllTypes())(b) {
      EveryKindListed(b.block.kind);
    }
    FilterAllOrNone(blocks, KindIn(AllTypes()));
    FilterSplitsTokens(blocks, InPrefix);
  }

  /**
    Conservation: every token admitted is kept, a duplicate, or dropped; and what is kept is the
    sum over the ten types and over the two halves of the prompt. When a window is given, ids shared
    after deduplication must be harmless.
   */
  lemma TokensConserved(s: Setting, request: Request, admitted: seq<Block>)
    requires s.window.None? || HarmlessIds(Dedup(s.norm, CountAll(s.counter, admitted)))
    ensures var r := Recorded(s, request, admitted);
      r.Success? ==>
        && r.value.before == r.value.after + r.value.deduplicated + r.value.dropped
        && r.value.byType.Keys == (set k | k in AllTypes())
        && r.value.after == SumOver(AllTypes(), r.value.byType)
        && r.value.after == r.value.stableTokens + r.value.volatileTokens
  {
    var r := Recorded(s, request, admitted);
    if r.Success? {
      var counted := CountAll(s.counter, admitted);
      var deduped := Dedup(s.norm, counted);
      DedupTokens(s.norm, counted);
      SortTokensAll(PlacementKey, deduped);
      KeptTokensAddUp(r.value.blocks);
      if s.window.Some? {
        DedupDistinct(s.norm, counted);
        SortDistinct(PlacementKey, deduped);
        var available := PlanBudget(s.window.value, Reserved(request, s.reserved), s.counter.exact,
                                    |OrderBlocks(deduped)|).value.Available();
        TruncationMeaning(OrderBlocks(deduped), available);
        SortTokensAll(PlacementKey, Truncate(OrderBlocks(deduped), available).value.kept);
      }
    }
  }

  /**
    The window: what is kept fits it together with the reservation, the safety margin and four
    tokens of framing per block, if and only if the reservation, margin and framing of the
    deduplicated blocks leave room for an allowance at all; otherwise nothing but empty blocks is kept.
   */
  lemma WindowRespected(s: Setting, request: Request, admitted: seq<Block>)
    requires s.window.Some? && HarmlessIds(Dedup(s.norm, CountAll(s.counter, admitted)))
    requires Recorded(s, request, admitted).Success?
    ensures var r := Recorded(s, request, admitted).value;
      var count := |Dedup(s.norm, CountAll(s.counter, admitted))|;
      && 0 <= r.reserved && 0 < s.window.value && |r.blocks| <= count
      && var overhead := r.reserved + SafetyMargin(s.window.value, s.counter.exact) + 4 * count;
      && (r.after + overhead <= s.window.value <==> overhead <= s.window.value)
      && (overhead > s.window.value ==> r.after == 0)
  {
    var deduped := Dedup(s.norm, CountAll(s.counter, admitted));
    var budget := PlanBudget(s.window.value, Reserved(request, s.reserved), s.counter.exact, |deduped|).value;
    DedupDistinct(s.norm, CountAll(s.counter, admitted));
    SortDistinct(PlacementKey, deduped);
    TruncationMeaning(OrderBlocks(deduped), budget.Available());
    SortTokensAll(PlacementKey, Truncate(OrderBlocks(deduped), budget.Available()).value.kept);
  }

  /** A window that leaves exactly so much room besides the safety margin. */
  function WindowFor(room: nat, exact: bool): (window: nat)
    requires room > 0
    ensures window > 0 && window - SafetyMargin(window, exact) == room
  {
    if exact then room else if room <= 1568 then room + 32
    else
      var q, rest := room / 49, room % 49;
      50 * q + rest + if rest > 0 then 1 else 0
  }

  /** Under this window the record loses no token, and fits if reservation, margin and framing alone do. */
  ghost predicate AccountedIn(s: Setting, request: Request, admitted: seq<Block>, window: int) {
    match Recorded(s.(window := Some(window)), request, admitted)
    case Failure(_) => true
    case Success(r) =>
      var overhead := r.reserved + SafetyMargin(window, s.counter.exact)
                    + 4 * |Dedup(s.norm, CountAll(s.counter, admitted))|;
      && r.before == r.after + r.deduplicated + r.dropped
      && (overhead <= window ==> r.after + overhead <= window)
  }

  /**
    Every window is respected and every token accounted for if and only if no droppable block with
    tokens shares a required block's id after deduplication, unless the reservation is negative and
    everything is refused.
   */
  lemma AccountingExact(s: Setting, request: Request, admitted: seq<Block>)
    ensures (forall window | window > 0 :: AccountedIn(s, request, admitted, window))
       <==> (Reserved(request, s.reserved) < 0 || HarmlessIds(Dedup(s.norm, CountAll(s.counter, admitted))))
  {
    hide AccountedIn;
    if HarmlessIds(Dedup(s.norm, CountAll(s.counter, admitted))) {
      forall window | window > 0 ensures AccountedIn(s, request, admitted, window) {
        AccountedWhenHarmless(s, request, admitted, window);
      }
    } else if Reserved(request, s.reserved) >= 0 {
      var window := WindowExceeded(s, request, admitted);
      assert !AccountedIn(s, request, admitted, window);
    } else {
      forall window | window > 0 ensures AccountedIn(s, request, admitted, window) {
        RefusedIsAccounted(s, request, admitted, window);
      }
    }
  }

  lemma RefusedIsAccounted(s: Setting, request: Request, admitted: seq<Block>, window: int)
    requires window > 0 && Reserved(request, s.reserved) < 0
    ensures AccountedIn(s, request, admitted, window)
  {
    BadBudgetRefused(s.(window := Some(window)), request, admitted);
  }

  lemma AccountedWhenHarmless(s: Setting, request: Request, admitted: seq<Block>, window: int)
    requires window > 0 && HarmlessIds(Dedup(s.norm, CountAll(s.counter, admitted)))
    ensures AccountedIn(s, request, admitted, window)
  {
    hide Recorded, Dedup, HarmlessIds;
    var at := s.(window := Some(window));
    TokensConserved(at, request, admitted);
    if Recorded(at, request, admitted).Success? {
      WindowRespected(at, request, admitted);
    }
  }

  lemma WindowExceeded(s: Setting, request: Request, admitted: seq<Block>) returns (window: int)
    requires Reserved(request, s.reserved) >= 0
    requires !HarmlessIds(Dedup(s.norm, CountAll(s.counter, admitted)))
    ensures window > 0 && !AccountedIn(s, request, admitted, window)
  {
    hide AccountedIn, Dedup, Reserved, CountAll;
    var deduped := Dedup(s.norm, CountAll(s.counter, admitted));
    var d, r :| d in deduped && r in deduped && Droppable(d) && !Droppable(r) && d.tokens > 0
      && d.block.id == r.block.id;
    window := WindowExceededBy(s, request, admitted, d, r);
  }

  lemma WindowExceededBy(s: Setting, request: Request, admitted: seq<Block>, d: Counted, r: Counted)
    returns (window: int)
    requires Reserved(request, s.reserved) >= 0
    requires var deduped := Dedup(s.norm, CountAll(s.counter, admitted));
      d in deduped && r in deduped && Droppable(d) && !Droppable(r) && d.tokens > 0 && d.block.id == r.block.id
    ensures window > 0 && !AccountedIn(s, request, admitted, window)
  {
    hide StableSort, Dedup, Truncate, Tokens, RequiredTokens, Reserved, Recorded, SafetyMargin, Droppable, CountAll;
    var ordered := OrderBlocks(Dedup(s.norm, CountAll(s.counter, admitted)));
    var required, reserved := RequiredTokens(ordered), Reserved(request, s.reserved);
    assert d in ordered && r in ordered && |ordered| > 0;
    window := WindowFor(required + reserved + 4 * |ordered|, s.counter.exact);
    SharedIdExceedsBudget(ordered, d, r);
    RecordedTokens(s.(window := Some(window)), request, admitted, required);
  }

  /** What is recorded when truncation succeeds with this allowance. */
  lemma RecordedTokens(s: Setting, request: Request, admitted: seq<Block>, available: nat)
    requires s.window.Some?
    requires var ordered := OrderBlocks(Dedup(s.norm, CountAll(s.counter, admitted)));
      var budget := PlanBudget(s.window.value, Reserved(request, s.reserved), s.counter.exact, |ordered|);
      budget.Success? && budget.value.Available() == available && Truncate(ordered, available).Success?
    ensures var ordered := OrderBlocks(Dedup(s.norm, CountAll(s.counter, admitted)));
      var r := Recorded(s, request, admitted);
      r.Success? && r.value.reserved == Reserved(request, s.reserved)
      && r.value.after == Tokens(Truncate(ordered, available).value.kept)
  {
    hide Truncate, Dedup, DuplicateTokens, StableSort, Tokens, KindTokens, MessagesFor, Filter;
    var ordered := OrderBlocks(Dedup(s.norm, CountAll(s.counter, admitted)));
    SortTokensAll(PlacementKey, Truncate(ordered, available).value.kept);
  }

  /** A window that is not positive, or a negative reservation, is refused whatever the request. */
  lemma BadBudgetRefused(s: Setting, request: Request, admitted: seq<Block>)
    requires s.window.Some?
    ensures (exists m :: Recorded(s, request, admitted) == Failure(Configuration(m)))
       <==> s.window.value <= 0 || Reserved(request, s.reserved) < 0
  {
  }

  /**
    What is set aside: the reservation asked for, else the request's own limit unless it is absent or zero,
    else 256 tokens; and, unless the counter is exact, two percent of the window rounded up, at least 32.
   */
  lemma SetAside(s: Setting, request: Request, admitted: seq<Block>, window: nat)
    ensures var r := Recorded(s, request, admitted);
      r.Success? ==>
        r.value.reserved == match (s.reserved, request.maxTokens)
                            case (Some(n), _) => n
                            case (None, Some(n)) => if n == 0 then 256 else n
                            case (None, None) => 256
    ensures var margin := SafetyMargin(window, s.counter.exact);
      if s.counter.exact then margin == 0
      else margin >= 32 && 50 * margin >= window && (margin == 32 || 50 * (margin - 1) < window)
  {
  }

  /**
    Compiled under any window: while shared ids are harmless, no block is kept while a more important one
    that is no larger and no duplicate is dropped.
   */
  lemma RecordRespectsImportance(s: Setting, request: Request, admitted: seq<Block>, x: Counted, y: Counted)
    requires var deduped := Dedup(s.norm, CountAll(s.counter, admitted));
      HarmlessIds(deduped) && x in deduped && y in deduped
    requires MoreImportant(x.block.priority, y.block.priority) && x.tokens <= y.tokens
    ensures var r := Recorded(s, request, admitted);
      r.Success? && y in r.value.blocks ==> x in r.value.blocks
  {
    var deduped := Dedup(s.norm, CountAll(s.counter, admitted));
    var ordered := OrderBlocks(deduped);
    DedupDistinct(s.norm, CountAll(s.counter, admitted));
    SortDistinct(PlacementKey, deduped);
    hide Dedup, CountAll, Truncate, Tokens, KindTokens, Filter, MessagesFor, Distinct, SafetyMargin, MoreImportant;
    if s.window.Some? {
      var reserved := Reserved(request, s.reserved);
      var budget := PlanBudget(s.window.value, reserved, s.counter.exact, |ordered|);
      if budget.Success? {
        ImportanceRespected(ordered, budget.value.Available(), x, y);
      }
    }
  }

  // ------------------------------------------------------ ids of chat messages

  lemma {:induction false} DecimalInjective(m: nat, n: nat)
    requires Decimal(m) == Decimal(n)
    ensures m == n
  {
    var digits := ['0', '1', '2', '3', '4', '5', '6', '7', '8', '9'];
    assert Decimal(m)[|Decimal(m)| - 1] == digits[m % 10] && Decimal(n)[|Decimal(n)| - 1] == digits[n % 10];
    assert m % 10 == n % 10;
    if m >= 10 && n >= 10 {
      assert Decimal(m)[..|Decimal(m)| - 1] == Decimal(m / 10) && Decimal(n)[..|Decimal(n)| - 1] == Decimal(n / 10);
      DecimalInjective(m / 10, n / 10);
    }
  }

  /** A chat request without extra blocks always has distinct block ids, so none of them is shared. */
  lemma ChatIdsDistinct(counter: Counter, request: Request, tenant: string)
    ensures var admitted := Admitted(request, tenant, []);
      admitted.Success? && DistinctIds(CountAll(counter, admitted.value))
      && forall norm: Normal :: HarmlessIds(Dedup(norm, CountAll(counter, admitted.value)))
  {
    var admitted := Admitted(request, tenant, []).value;
    var counted := CountAll(counter, admitted);
    forall i, j | 0 <= i < j < |counted| ensures counted[i].block.id != counted[j].block.id {
      if counted[i].block.id == counted[j].block.id {
        assert MessageId(i)[4..] == Decimal(i) && MessageId(j)[4..] == Decimal(j);
        DecimalInjective(i, j);
      }
    }
    DistinctIdsAreHarmless(counted);
    forall norm: Normal ensures HarmlessIds(Dedup(norm, counted)) {
      DedupMeaning(norm, counted);
    }
  }

  // ------------------------------------------------------------ the messages

  /** What a record says of its blocks and messages, whatever the window. */
  lemma MessagesFollowBlocks(s: Setting, request: Request, admitted: seq<Block>)
    ensures var r := Recorded(s, request, admitted);
      r.Success? ==>
        && |r.value.messages| == |r.value.blocks|
        && (forall i | 0 <= i < |r.value.blocks| ::
              r.value.blocks[i].block in admitted
              && r.value.messages[i].content == r.value.blocks[i].block.content
              && Speaks(r.value.blocks[i].block, r.value.messages[i].role))
        && (forall i, j | 0 <= i < j < |r.value.blocks| ::
              !BelongsBefore(r.value.blocks[j].block, r.value.blocks[i].block))
  {
    hide Selected, Dedup, CountAll, StableSort, DuplicateTokens, Tokens, KindTokens, Filter, BelongsBefore, Reserved;
    hide Speaks, RoleFor;
    var r := Recorded(s, request, admitted);
    if r.Success? {
      var counted := CountAll(s.counter, admitted);
      SelectedFrom(Dedup(s.norm, counted), s.window, Reserved(request, s.reserved), s.counter.exact);
      DedupMeaning(s.norm, counted);
      forall i | 0 <= i < |r.value.blocks|
        ensures r.value.blocks[i].block in admitted
          && Speaks(r.value.blocks[i].block, RoleFor(r.value.blocks[i].block))
      {
        assert r.value.blocks[i] in counted;
        CountedBlocks(s.counter, admitted, r.value.blocks[i]);
        RoleSpeaks(r.value.blocks[i].block);
      }
    }
  }

  lemma CountedBlocks(counter: Counter, admitted: seq<Block>, b: Counted)
    requires b in CountAll(counter, admitted)
    ensures b.block in admitted
  {
  }

  lemma RoleSpeaks(b: Block)
    ensures Speaks(b, RoleFor(b))
  {
  }

  /** What is selected comes from the given blocks and stands in the prompt's order. */
  lemma SelectedFrom(blocks: seq<Counted>, window: Option<int>, reserved: int, exact: bool)
    ensures var r := Selected(OrderBlocks(blocks), window, reserved, exact);
      r.Success? ==>
        && (forall b | b in r.value.kept :: b in blocks)
        && (forall i, j | 0 <= i < j < |r.value.kept| ::
              !BelongsBefore(r.value.kept[j].block, r.value.kept[i].block))
  {
    hide BelongsBefore, RequiredTokens, Taken, Filter;
    var ordered := OrderBlocks(blocks);
    var b := Block("", "", System, "", "", TrustSystem, High, Stable);
    if window.None? {
      OrderMeaning(blocks, b);
    } else if window.value > 0 && reserved >= 0 {
      var t := Truncate(ordered, PlanBudget(window.value, reserved, exact, |ordered|).value.Available());
      if t.Success? {
        OrderMeaning(t.value.kept, b);
      }
    }
  }

  const ROLES := {"system", "user", "assistant", "tool"}

  /** The role a block speaks in: its own if it has one, else one its type or trust gives it. */
  ghost predicate Speaks(b: Block, role: string) {
    if b.source in ROLES then role == b.source
    else
      match b.kind
      case ToolResult => role == "tool"
      case User => role == "user"
      case _ => role == if b.trust in {TrustSystem, TrustDeveloper, TrustTenant} then "system" else "user"
  }

  /** What each message of a chat is admitted as, by its role and by whether it is the latest user turn. */
  lemma AdmittedAs(request: Request, tenant: string, i: nat)
    requires i < |request.messages|
    ensures var admitted := Admitted(request, tenant, []);
      && admitted.Success? && |admitted.value| == |request.messages|
      && var b, m := admitted.value[i], request.messages[i];
         && b.id == "msg-" + Decimal(i) && b.content == m.content && b.source == m.role && b.tenant == tenant
         && (m.role == "system" ==>
               b.kind == System && b.trust == TrustSystem && b.priority == Required && b.cacheability == Stable)
         && (m.role == "tool" ==>
               b.kind == ToolResult && b.trust == TrustTool && b.priority == Normal && b.cacheability == Volatile)
         && (m.role !in {"system", "tool"} ==> b.trust == TrustUser && b.cacheability == Volatile)
         && (LatestUser(request.messages, i) ==> b.kind == User && b.priority == Required)
         && (m.role !in {"system", "tool"} && !LatestUser(request.messages, i) && m.role in ROLES ==>
               b.kind == Conversation && b.priority == High)
  {
    if LatestUser(request.messages, i) {
      LastUserMeaning(request.messages, i);
    }
    LastUserIsLatest(request.messages);
  }

  lemma {:induction false} LastUserIsLatest(messages: seq<Message>)
    ensures LastUser(messages) >= 0 ==> LatestUser(messages, LastUser(messages))
    ensures LastUser(messages) < 0 ==> forall j | 0 <= j < |messages| :: messages[j].role != "user"
  {
    if messages != [] {
      LastUserIsLatest(messages[..|messages| - 1]);
      assert forall j | 0 <= j < |messages| - 1 :: messages[..|messages| - 1][j] == messages[j];
    }
  }

  // --------------------------------------------- turns keep their order

  /** The number in a chat block's id. */
  ghost function NumberOf(b: Counted): (n: int)
    ensures forall k: nat | b.block.id == "msg-" + Decimal(k) :: n == k
  {
    if k: nat :| b.block.id == "msg-" + Decimal(k) then
      assert forall m: nat | b.block.id == "msg-" + Decimal(m) :: m == k by {
        forall m: nat | b.block.id == "msg-" + Decimal(m) ensures m == k {
          assert ("msg-" + Decimal(m))[4..] == Decimal(m) && ("msg-" + Decimal(k))[4..] == Decimal(k);
          DecimalInjective(m, k);
        }
      }
      k
    else -1
  }

  ghost predicate Increasing(blocks: seq<Counted>) {
    forall i, j | 0 <= i < j < |blocks| :: NumberOf(blocks[i]) < NumberOf(blocks[j])
  }

  /** Blocks that are placed alike stand in the order of their numbers. */
  ghost predicate TurnsInOrder(blocks: seq<Counted>) {
    forall b: Block :: Increasing(Filter(blocks, PlacedLike(b)))
  }

  lemma {:induction false} FilterIncreasing(blocks: seq<Counted>, keep: Counted -> bool)
    requires Increasing(blocks)
    ensures Increasing(Filter(blocks, keep))
  {
    if blocks != [] {
      hide NumberOf;
      FilterIncreasing(blocks[1..], keep);
      var rest := Filter(blocks[1..], keep);
      forall j | 0 <= j < |rest| ensures NumberOf(blocks[0]) < NumberOf(rest[j]) {
        assert rest[j] in blocks[1..];
      }
    }
  }

  lemma OrderKeepsTurns(blocks: seq<Counted>)
    requires TurnsInOrder(blocks)
    ensures TurnsInOrder(OrderBlocks(blocks))
  {
    hide StableSort, Increasing, Filter, PlacedLike;
    forall b: Block ensures Increasing(Filter(OrderBlocks(blocks), PlacedLike(b))) {
      OrderMeaning(blocks, b);
    }
  }

  lemma FilterKeepsTurns(blocks: seq<Counted>, keep: Counted -> bool)
    requires TurnsInOrder(blocks)
    ensures TurnsInOrder(Filter(blocks, keep))
  {
    hide Increasing, Filter, PlacedLike;
    forall b: Block ensures Increasing(Filter(Filter(blocks, keep), PlacedLike(b))) {
      var alike := PlacedLike(b);
      FilterTwice(blocks, keep, alike);
      FilterTwice(blocks, alike, keep);
      FilterAgree(blocks, Both(keep, alike), Both(alike, keep));
      FilterIncreasing(Filter(blocks, alike), keep);
    }
  }

  lemma {:induction false} DedupIncreasing(norm: Normal, blocks: seq<Counted>)
    requires Increasing(blocks)
    ensures Increasing(Dedup(norm, blocks))
  {
    if blocks != [] {
      hide NumberOf, SeenIn;
      var before, last := blocks[..|blocks| - 1], blocks[|blocks| - 1];
      DedupIncreasing(norm, before);
      DedupHasNoTwins(norm, before);
      forall i | 0 <= i < |Dedup(norm, before)| ensures NumberOf(Dedup(norm, before)[i]) < NumberOf(last) {
        assert Dedup(norm, before)[i] in before;
      }
    }
  }

  lemma PlaceInFilter(blocks: seq<Counted>, alike: Counted -> bool, i: nat)
    requires i < |blocks| && alike(blocks[i])
    ensures var k := |Filter(blocks[..i], alike)|;
      k < |Filter(blocks, alike)| && Filter(blocks, alike)[k] == blocks[i]
      && |Filter(blocks[..i + 1], alike)| == k + 1
  {
    hide Filter;
    var front, x, back := blocks[..i], blocks[i], blocks[i + 1..];
    FilterConcat(front, [x] + back, alike);
    FilterPrepend(x, back, alike);
    FilterConcat(front, [x], alike);
    FilterAllOrNone([x], alike);
    assert blocks == front + ([x] + back) && blocks[..i + 1] == front + [x];
  }

  /** Of two blocks placed alike, the one that stands first has the smaller number. */
  lemma FirstIsEarlier(blocks: seq<Counted>, alike: Counted -> bool, i: nat, j: nat)
    requires i < j < |blocks| && alike(blocks[i]) && alike(blocks[j]) && Increasing(Filter(blocks, alike))
    ensures NumberOf(blocks[i]) < NumberOf(blocks[j])
  {
    hide NumberOf, Filter;
    PlaceInFilter(blocks, alike, i);
    PlaceInFilter(blocks, alike, j);
    FilterConcat(blocks[..i + 1], blocks[i + 1..j], alike);
    assert blocks[..j] == blocks[..i + 1] + blocks[i + 1..j];
  }

  lemma SelectedKeepsTurns(blocks: seq<Counted>, window: Option<int>, reserved: int, exact: bool)
    requires Increasing(blocks) && Distinct(blocks)
    ensures var r := Selected(OrderBlocks(blocks), window, reserved, exact);
      r.Success? ==> TurnsInOrder(r.value.kept) && Distinct(r.value.kept)
  {
    hide Increasing, Distinct, TurnsInOrder, StableSort, Filter, RequiredTokens, Taken, KeptBy;
    IncreasingInOrder(blocks);
    OrderKeepsTurns(blocks);
    SortDistinct(PlacementKey, blocks);
    var ordered := OrderBlocks(blocks);
    if window.Some? && window.value > 0 && reserved >= 0 {
      var available := PlanBudget(window.value, reserved, exact, |ordered|).value.Available();
      var keep := KeptBy(RequiredBlocks(ordered), Taken(ordered, available));
      FilterKeepsTurns(ordered, keep);
      FilterDistinct(ordered, keep);
      OrderKeepsTurns(Filter(ordered, keep));
      SortDistinct(PlacementKey, Filter(ordered, keep));
    }
  }

  lemma IncreasingInOrder(blocks: seq<Counted>)
    requires Increasing(blocks)
    ensures TurnsInOrder(blocks)
  {
    hide Increasing, Filter;
    forall b: Block ensures Increasing(Filter(blocks, PlacedLike(b))) {
      FilterIncreasing(blocks, PlacedLike(b));
    }
  }

  // ------------------------------------------------------ a chat, retold

  /**
    What became of the messages of a chat: message `i` of the record is message `at[i]` of the request,
    with the same words and role, in the block of that number; and the turns of user and assistant are
    in the order of the request.
   */
  ghost predicate Retells(messages: seq<Message>, record: Record, at: seq<nat>) {
    && |at| == |record.messages| == |record.blocks|
    && (forall i | 0 <= i < |at| ::
          at[i] < |messages| && record.blocks[i].block.id == "msg-" + Decimal(at[i])
          && record.messages[i].content == messages[at[i]].content
          && (messages[at[i]].role in ROLES ==> record.messages[i].role == messages[at[i]].role))
    && (forall i, j | 0 <= i < j < |at| :: at[i] != at[j])
    && forall i, j | 0 <= i < j < |at| && Turn(messages[at[i]]) && Turn(messages[at[j]]) :: at[i] < at[j]
  }

  ghost predicate Turn(m: Message) {
    m.role in {"user", "assistant"}
  }

  /** The block is that of message `k` of the chat. */
  ghost predicate IsMessage(messages: seq<Message>, b: Block, k: nat) {
    && k < |messages| && b.id == "msg-" + Decimal(k) && b.content == messages[k].content && b.source == messages[k].role
    && (Turn(messages[k]) ==> b.cacheability == Volatile && b.trust == TrustUser)
  }

  lemma ChatBlocksMeaning(counter: Counter, messages: seq<Message>, tenant: string, last: int)
    ensures Increasing(ChatBlocks(counter, messages, tenant, last))
    ensures forall b | b in MessageBlocks(messages, tenant, last) :: exists k: nat :: IsMessage(messages, b, k)
  {
    hide NumberOf;
    var blocks := ChatBlocks(counter, messages, tenant, last);
    forall i | 0 <= i < |messages|
      ensures NumberOf(blocks[i]) == i && IsMessage(messages, blocks[i].block, i)
    {
      assert blocks[i].block.id == "msg-" + Decimal(i);
    }
  }

  lemma IncreasingDiffer(blocks: seq<Counted>, x: Counted, y: Counted)
    requires Increasing(blocks) && x in blocks && y in blocks && x != y
    ensures NumberOf(x) != NumberOf(y)
  {
    hide NumberOf;
    var i :| 0 <= i < |blocks| && blocks[i] == x;
    var j :| 0 <= j < |blocks| && blocks[j] == y;
  }

  lemma SelectedNumbers(blocks: seq<Counted>, window: Option<int>, reserved: int, exact: bool)
    requires Increasing(blocks) && Distinct(blocks)
    ensures var r := Selected(OrderBlocks(blocks), window, reserved, exact);
      r.Success? ==>
        TurnsInOrder(r.value.kept)
        && forall i, j | 0 <= i < j < |r.value.kept| :: NumberOf(r.value.kept[i]) != NumberOf(r.value.kept[j])
  {
    SelectedKeepsTurns(blocks, window, reserved, exact);
    SelectedFrom(blocks, window, reserved, exact);
    hide NumberOf, Increasing, TurnsInOrder, Selected;
    var r := Selected(OrderBlocks(blocks), window, reserved, exact);
    if r.Success? {
      forall i, j | 0 <= i < j < |r.value.kept| ensures NumberOf(r.value.kept[i]) != NumberOf(r.value.kept[j]) {
        assert r.value.kept[i] in blocks && r.value.kept[j] in blocks;
        IncreasingDiffer(blocks, r.value.kept[i], r.value.kept[j]);
      }
    }
  }

  lemma RecordKeepsTurns(s: Setting, request: Request)
    ensures var r := Recorded(s, request, Admitted(request, s.tenant, []).value);
      r.Success? ==>
        TurnsInOrder(r.value.blocks)
        && forall i, j | 0 <= i < j < |r.value.blocks| :: NumberOf(r.value.blocks[i]) != NumberOf(r.value.blocks[j])
  {
    var last := LastUser(request.messages);
    var counted := ChatBlocks(s.counter, request.messages, s.tenant, last);
    assert Admitted(request, s.tenant, []).value == MessageBlocks(request.messages, s.tenant, last);
    ChatBlocksMeaning(s.counter, request.messages, s.tenant, last);
    DedupIncreasing(s.norm, counted);
    DedupDistinct(s.norm, counted);
    hide Selected, Dedup, Increasing, TurnsInOrder, NumberOf, Tokens, KindTokens, Filter, StableSort, DuplicateTokens;
    SelectedNumbers(Dedup(s.norm, counted), s.window, Reserved(request, s.reserved), s.counter.exact);
  }

  lemma Numbers(messages: seq<Message>, blocks: seq<Counted>) returns (at: seq<nat>)
    requires forall b | b in blocks :: exists k: nat :: IsMessage(messages, b.block, k)
    ensures |at| == |blocks| && forall i | 0 <= i < |at| :: IsMessage(messages, blocks[i].block, at[i])
  {
    hide IsMessage;
    if blocks == [] {
      at := [];
    } else {
      var k: nat :| IsMessage(messages, blocks[0].block, k);
      assert forall b | b in blocks[1..] :: b in blocks;
      var rest := Numbers(messages, blocks[1..]);
      at := [k] + rest;
    }
  }

  lemma TurnsNumbered(messages: seq<Message>, blocks: seq<Counted>, at: seq<nat>)
    requires |at| == |blocks| && forall i | 0 <= i < |at| :: IsMessage(messages, blocks[i].block, at[i])
    requires TurnsInOrder(blocks)
    ensures forall i | 0 <= i < |at| :: at[i] < |messages|
    ensures forall i, j | 0 <= i < j < |at| && Turn(messages[at[i]]) && Turn(messages[at[j]]) :: at[i] < at[j]
  {
    hide Increasing, NumberOf;
    forall i, j | 0 <= i < j < |at| && Turn(messages[at[i]]) && Turn(messages[at[j]]) ensures at[i] < at[j] {
      FirstIsEarlier(blocks, PlacedLike(blocks[i].block), i, j);
    }
  }

  /**
    A compiled chat is made of messages of the request, each at most once, with the words and in the role
    they had there, and no turn of the conversation overtakes another.
   */
  lemma ChatRetold(s: Setting, request: Request) returns (at: seq<nat>)
    ensures var r := Recorded(s, request, Admitted(request, s.tenant, []).value);
      r.Success? ==> Retells(request.messages, r.value, at)
  {
    var admitted := Admitted(request, s.tenant, []).value;
    var r := Recorded(s, request, admitted);
    at := [];
    if r.Success? {
      var last := LastUser(request.messages);
      assert admitted == MessageBlocks(request.messages, s.tenant, last);
      MessagesFollowBlocks(s, request, admitted);
      RecordKeepsTurns(s, request);
      ChatBlocksMeaning(s.counter, request.messages, s.tenant, last);
      hide Recorded, Admitted, MessageBlocks, IsMessage, TurnsInOrder, NumberOf, Speaks, BelongsBefore, Retells;
      at := Numbers(request.messages, r.value.blocks);
      NumbersRetell(request.messages, r.value, at);
    }
  }

  lemma NumbersRetell(messages: seq<Message>, record: Record, at: seq<nat>)
    requires |at| == |record.blocks| == |record.messages| && TurnsInOrder(record.blocks)
    requires forall i | 0 <= i < |at| :: IsMessage(messages, record.blocks[i].block, at[i])
    requires forall i | 0 <= i < |at| ::
      record.messages[i].content == record.blocks[i].block.content
      && Speaks(record.blocks[i].block, record.messages[i].role)
    requires forall i, j | 0 <= i < j < |at| :: NumberOf(record.blocks[i]) != NumberOf(record.blocks[j])
    ensures Retells(messages, record, at)
  {
    hide TurnsInOrder, NumberOf;
    TurnsNumbered(messages, record.blocks, at);
  }

  /** Message `n` is the last the user sent. */
  ghost predicate LatestUser(messages: seq<Message>, n: nat) {
    n < |messages| && messages[n].role == "user" && forall j | n < j < |messages| :: messages[j].role != "user"
  }

  lemma {:induction false} LastUserMeaning(messages: seq<Message>, n: nat)
    requires LatestUser(messages, n)
    ensures LastUser(messages) == n
  {
    var m := |messages| - 1;
    if n < m {
      assert messages[m].role != "user";
      LastUserMeaning(messages[..m], n);
    }
  }

  /** No earlier message says the same as message `n`. */
  ghost predicate Novel(norm: Normal, messages: seq<Message>, n: nat)
    requires n < |messages|
  {
    !exists i | 0 <= i < n :: norm(messages[i].content) == norm(messages[n].content)
  }

  /** The blocks of a chat around that of message `n`, no other of which is equal to it. */
  lemma BlocksAround(counter: Counter, messages: seq<Message>, tenant: string, last: int, n: nat)
    returns (b: Counted, after: seq<Counted>)
    requires n < |messages|
    ensures var before := ChatBlocks(counter, messages[..n], tenant, last);
      ChatBlocks(counter, messages, tenant, last) == before + [b] + after && b !in before && b !in after
    ensures b.block == MessageBlock(messages[n], n, tenant, n == last)
  {
    var blocks := ChatBlocks(counter, messages, tenant, last);
    b, after := blocks[n], blocks[n + 1..];
    assert blocks[..n] == ChatBlocks(counter, messages[..n], tenant, last);
    ChatBlocksMeaning(counter, messages, tenant, last);
    hide ChatBlocks, NumberOf;
    assert blocks == blocks[..n] + [b] + after;
    forall k | 0 <= k < |blocks| && k != n ensures blocks[k] != b {
      assert k < n ==> NumberOf(blocks[k]) < NumberOf(blocks[n]);
      assert n < k ==> NumberOf(blocks[n]) < NumberOf(blocks[k]);
    }
    assert forall k | 0 <= k < |after| :: after[k] == blocks[n + 1 + k];
  }

  /** The block of the latest user turn is required, and survives deduplication exactly when it says something new. */
  lemma LatestBlock(norm: Normal, counter: Counter, messages: seq<Message>, tenant: string, n: nat) returns (b: Counted)
    requires LatestUser(messages, n)
    ensures b.block.id == "msg-" + Decimal(n) && !Droppable(b)
    ensures b in Dedup(norm, ChatBlocks(counter, messages, tenant, n)) <==> Novel(norm, messages, n)
    ensures b in ChatBlocks(counter, messages, tenant, n)
  {
    var after;
    b, after := BlocksAround(counter, messages, tenant, n, n);
    hide Dedup, ChatBlocks, SeenIn;
    var before := ChatBlocks(counter, messages[..n], tenant, n);
    DedupKeepsFirst(norm, before, b, after);
    SeenInChat(norm, counter, messages[..n], tenant, n, b);
    assert forall i | 0 <= i < n :: messages[..n][i] == messages[i];
    assert b in before + [b] + after;
  }

  /** Of deduplicated blocks every required one is selected, and nothing else than they are. */
  lemma RequiredIsSelected(blocks: seq<Counted>, window: Option<int>, reserved: int, exact: bool, b: Counted)
    requires !Droppable(b)
    ensures var r := Selected(OrderBlocks(blocks), window, reserved, exact);
      r.Success? ==> (b in r.value.kept <==> b in blocks)
  {
    SelectedFrom(blocks, window, reserved, exact);
    var ordered := OrderBlocks(blocks);
    if window.Some? && window.value > 0 && reserved >= 0 && b in blocks {
      assert b in RequiredBlocks(ordered);
      KeptReasons(ordered, PlanBudget(window.value, reserved, exact, |ordered|).value.Available(), b);
      hide Kept, RequiredTokens, RequiredBlocks, Taken, Filter;
    }
  }

  /**
    Whatever the window, the latest user turn is in the compiled chat if and only if no earlier message
    says the same.
   */
  lemma LatestTurnKept(s: Setting, request: Request, n: nat)
    requires LatestUser(request.messages, n)
    ensures var r := Recorded(s, request, Admitted(request, s.tenant, []).value);
      r.Success? ==>
        ((exists i :: 0 <= i < |r.value.blocks| && r.value.blocks[i].block.id == "msg-" + Decimal(n))
         <==> Novel(s.norm, request.messages, n))
  {
    LastUserMeaning(request.messages, n);
    var admitted := MessageBlocks(request.messages, s.tenant, n);
    assert Admitted(request, s.tenant, []).value == admitted;
    var counted := CountAll(s.counter, admitted);
    assert counted == ChatBlocks(s.counter, request.messages, s.tenant, n);
    var b := LatestBlock(s.norm, s.counter, request.messages, s.tenant, n);
    var r := Recorded(s, request, admitted);
    if r.Success? {
      RequiredIsSelected(Dedup(s.norm, counted), s.window, Reserved(request, s.reserved), s.counter.exact, b);
      SelectedFrom(Dedup(s.norm, counted), s.window, Reserved(request, s.reserved), s.counter.exact);
      DedupHasNoTwins(s.norm, counted);
      ChatBlocksMeaning(s.counter, request.messages, s.tenant, n);
      hide Selected, Dedup, CountAll, MessageBlocks, ChatBlocks, Increasing, NumberOf, Droppable, Novel, Tokens;
      hide KindTokens;
      forall i | 0 <= i < |r.value.blocks| && r.value.blocks[i].block.id == "msg-" + Decimal(n)
        ensures r.value.blocks[i] == b
      {
        assert r.value.blocks[i] in counted;
        SameNumber(counted, r.value.blocks[i], b, n);
      }
    }
  }

  lemma SameNumber(blocks: seq<Counted>, x: Counted, y: Counted, n: nat)
    requires Increasing(blocks) && x in blocks && y in blocks
    requires x.block.id == "msg-" + Decimal(n) == y.block.id
    ensures x == y
  {
    assert NumberOf(x) == n == NumberOf(y);
    if x != y {
      IncreasingDiffer(blocks, x, y);
    }
  }

  // ------------------------------------------------------- the stable prefix

  function Contents(blocks: seq<Counted>): seq<string> {
    seq(|blocks|, i requires 0 <= i < |blocks| => blocks[i].block.content)
  }

  /** What the request's system messages say, in order. */
  function SystemContents(messages: seq<Message>): seq<string> {
    if messages == [] then []
    else
      var last := messages[|messages| - 1];
      SystemContents(messages[..|messages| - 1]) + if last.role == "system" then [last.content] else []
  }

  /** The texts without later repetitions of one that means the same. */
  function FirstOfEach(norm: Normal, texts: seq<string>): seq<string> {
    if texts == [] then []
    else
      var last, before := texts[|texts| - 1], texts[..|texts| - 1];
      FirstOfEach(norm, before) + if exists t | t in before :: norm(t) == norm(last) then [] else [last]
  }

  /** The system message at `j` repeats no earlier system message, but an earlier other turn says the same. */
  ghost predicate Masked(norm: Normal, messages: seq<Message>, j: nat)
    requires j < |messages|
  {
    && messages[j].role == "system"
    && (forall i | 0 <= i < j && messages[i].role == "system" :: norm(messages[i].content) != norm(messages[j].content))
    && (exists i | 0 <= i < j :: norm(messages[i].content) == norm(messages[j].content))
  }

  ghost predicate SomeMasked(norm: Normal, messages: seq<Message>) {
    exists j: nat | j < |messages| :: Masked(norm, messages, j)
  }

  /** The chat blocks of the first messages, `last` being the last user message of all of them. */
  function ChatBlocks(counter: Counter, messages: seq<Message>, tenant: string, last: int): seq<Counted> {
    CountAll(counter, MessageBlocks(messages, tenant, last))
  }

  lemma ChatBlocksStep(counter: Counter, messages: seq<Message>, tenant: string, last: int)
    requires messages != []
    ensures var n := |messages| - 1;
      var b := Counted(MessageBlock(messages[n], n, tenant, n == last), counter.count(messages[n].content));
      ChatBlocks(counter, messages, tenant, last) == ChatBlocks(counter, messages[..n], tenant, last) + [b]
  {
  }

  lemma {:induction false} SystemContentsHas(messages: seq<Message>, norm: Normal, text: string)
    ensures (exists t | t in SystemContents(messages) :: norm(t) == norm(text))
       <==> exists i | 0 <= i < |messages| :: messages[i].role == "system" && norm(messages[i].content) == norm(text)
  {
    if messages != [] {
      var n := |messages| - 1;
      SystemContentsHas(messages[..n], norm, text);
      var before := SystemContents(messages[..n]);
      assert forall i | 0 <= i < n :: messages[..n][i] == messages[i];
      if messages[n].role == "system" {
        assert messages[n].content in SystemContents(messages);
      }
      forall t ensures t in SystemContents(messages) <==>
        (t in before || (messages[n].role == "system" && t == messages[n].content))
      {
      }
    }
  }

  lemma SeenInChat(
      norm: Normal, counter: Counter, messages: seq<Message>, tenant: string, last: int, b: Counted)
    ensures SeenIn(norm, ChatBlocks(counter, messages, tenant, last), b)
       <==> exists i | 0 <= i < |messages| :: norm(messages[i].content) == norm(b.block.content)
  {
    var blocks := ChatBlocks(counter, messages, tenant, last);
    assert forall i | 0 <= i < |messages| :: blocks[i].block.content == messages[i].content;
    if i :| 0 <= i < |messages| && norm(messages[i].content) == norm(b.block.content) {
      assert blocks[i] in blocks;
    }
  }

  /** The prefix blocks that survive deduplication, as texts. */
  ghost function PrefixContents(
      norm: Normal, counter: Counter, messages: seq<Message>, tenant: string, last: int): seq<string>
  {
    Contents(Filter(Dedup(norm, ChatBlocks(counter, messages, tenant, last)), InPrefix))
  }

  lemma ContentsConcat(a: seq<Counted>, b: seq<Counted>)
    ensures Contents(a + b) == Contents(a) + Contents(b)
  {
  }

  lemma DedupPrefixStep(norm: Normal, before: seq<Counted>, b: Counted)
    ensures Contents(Filter(Dedup(norm, before + [b]), InPrefix))
         == Contents(Filter(Dedup(norm, before), InPrefix))
            + if InPrefix(b) && !SeenIn(norm, before, b) then [b.block.content] else []
  {
    hide Dedup, SeenIn, InPrefix;
    var deduped := Dedup(norm, before);
    var more := if SeenIn(norm, before, b) then [] else [b];
    DedupStep(norm, before, b);
    FilterConcat(deduped, more, InPrefix);
    FilterAllOrNone(more, InPrefix);
    ContentsConcat(Filter(deduped, InPrefix), Filter(more, InPrefix));
  }

  lemma NovelInChat(
      norm: Normal, counter: Counter, messages: seq<Message>, tenant: string, last: int, b: Counted)
    requires messages != [] && b.block.content == messages[|messages| - 1].content
    ensures var n := |messages| - 1;
      SeenIn(norm, ChatBlocks(counter, messages[..n], tenant, last), b) <==> !Novel(norm, messages, n)
  {
    hide SeenIn, ChatBlocks;
    var n := |messages| - 1;
    SeenInChat(norm, counter, messages[..n], tenant, last, b);
    assert forall i | 0 <= i < n :: messages[..n][i] == messages[i];
  }

  lemma PrefixContentsStep(norm: Normal, counter: Counter, messages: seq<Message>, tenant: string, last: int)
    requires messages != []
    ensures var n := |messages| - 1;
      PrefixContents(norm, counter, messages, tenant, last)
        == PrefixContents(norm, counter, messages[..n], tenant, last)
           + if messages[n].role == "system" && Novel(norm, messages, n) then [messages[n].content] else []
  {
    var n := |messages| - 1;
    ChatBlocksStep(counter, messages, tenant, last);
    var b := Counted(MessageBlock(messages[n], n, tenant, n == last), counter.count(messages[n].content));
    NovelInChat(norm, counter, messages, tenant, last, b);
    assert InPrefix(b) <==> messages[n].role == "system";
    hide Dedup, ChatBlocks, SeenIn, Contents, InPrefix, Novel, Filter;
    DedupPrefixStep(norm, ChatBlocks(counter, messages[..n], tenant, last), b);
  }

  /** No earlier system message says the same as message `n`. */
  ghost predicate NovelSystem(norm: Normal, messages: seq<Message>, n: nat)
    requires n < |messages|
  {
    !exists i | 0 <= i < n :: messages[i].role == "system" && norm(messages[i].content) == norm(messages[n].content)
  }

  lemma FirstOfEachStep(norm: Normal, before: seq<string>, text: string)
    ensures FirstOfEach(norm, before + [text])
         == FirstOfEach(norm, before) + if exists t | t in before :: norm(t) == norm(text) then [] else [text]
  {
    assert (before + [text])[..|before|] == before;
  }

  lemma SystemStep(norm: Normal, messages: seq<Message>)
    requires messages != []
    ensures var n := |messages| - 1;
      FirstOfEach(norm, SystemContents(messages))
        == FirstOfEach(norm, SystemContents(messages[..n]))
           + if messages[n].role == "system" && NovelSystem(norm, messages, n) then [messages[n].content] else []
  {
    hide FirstOfEach;
    var n := |messages| - 1;
    var before := SystemContents(messages[..n]);
    SystemContentsHas(messages[..n], norm, messages[n].content);
    assert forall i | 0 <= i < n :: messages[..n][i] == messages[i];
    if messages[n].role == "system" {
      FirstOfEachStep(norm, before, messages[n].content);
    } else {
      assert before + [] == before;
    }
  }

  lemma MaskedStep(norm: Normal, messages: seq<Message>)
    requires messages != []
    ensures var n := |messages| - 1;
      SomeMasked(norm, messages) <==> SomeMasked(norm, messages[..n]) || Masked(norm, messages, n)
    ensures var n := |messages| - 1;
      Masked(norm, messages, n) <==>
        (messages[n].role == "system" && NovelSystem(norm, messages, n) && !Novel(norm, messages, n))
  {
    var n := |messages| - 1;
    assert forall i | 0 <= i < n :: messages[..n][i] == messages[i];
    forall j: nat | j < n ensures Masked(norm, messages, j) <==> Masked(norm, messages[..n], j) {
    }
  }

  /** The surviving prefix is what the system messages alone say, if and only if none of them is masked. */
  lemma {:induction false} PrefixIsSystem(
      norm: Normal, counter: Counter, messages: seq<Message>, tenant: string, last: int)
    ensures var prefix := PrefixContents(norm, counter, messages, tenant, last);
      var system := FirstOfEach(norm, SystemContents(messages));
      && |prefix| <= |system|
      && (SomeMasked(norm, messages) ==> |prefix| < |system|)
      && (!SomeMasked(norm, messages) ==> prefix == system)
  {
    if messages != [] {
      var n := |messages| - 1;
      PrefixIsSystem(norm, counter, messages[..n], tenant, last);
      hide SomeMasked, Masked, PrefixContents, FirstOfEach, SystemContents;
      PrefixContentsStep(norm, counter, messages, tenant, last);
      SystemStep(norm, messages);
      MaskedStep(norm, messages);
    }
  }

  // -------------------------------------------------- from blocks to the record

  /** Dropping nothing of the prefix: truncation keeps every prefix block that is required. */
  lemma KeptPrefix(blocks: seq<Counted>, available: int)
    requires forall b | b in blocks && InPrefix(b) :: !Droppable(b)
    ensures Filter(Kept(blocks, available), InPrefix) == Filter(blocks, InPrefix)
  {
    var keep := KeptBy(RequiredBlocks(blocks), Taken(blocks, available));
    forall b | b in blocks ensures Both(keep, InPrefix)(b) == InPrefix(b) {
      assert InPrefix(b) ==> Not(Droppable)(b) && b in RequiredBlocks(blocks);
    }
    FilterTwice(blocks, keep, InPrefix);
    FilterAgree(blocks, Both(keep, InPrefix), InPrefix);
  }

  /** Prefix blocks that share one placement keep their order when sorted. */
  lemma SortedPrefix(blocks: seq<Counted>, k: Key)
    requires forall b | b in blocks :: InPrefix(b) <==> PlacementKey(b) == k
    ensures Filter(OrderBlocks(blocks), InPrefix) == Filter(blocks, InPrefix)
  {
    SortStable(PlacementKey, blocks, k);
    FilterAgree(blocks, InPrefix, WithKey(PlacementKey, k));
    FilterAgree(OrderBlocks(blocks), InPrefix, WithKey(PlacementKey, k));
  }

  /** In a chat request the prefix blocks are the system messages, all required and equally placed. */
  lemma ChatPrefixBlocks(norm: Normal, counter: Counter, messages: seq<Message>, tenant: string, last: int)
    ensures forall b | b in Dedup(norm, ChatBlocks(counter, messages, tenant, last)) ::
      (InPrefix(b) <==> PlacementKey(b) == Key(0, 0)) && (InPrefix(b) ==> !Droppable(b))
  {
    DedupMeaning(norm, ChatBlocks(counter, messages, tenant, last));
    ChatBlocksPlaced(counter, messages, tenant, last);
    hide Dedup, ChatBlocks, InPrefix, PlacementKey, Droppable, Fingerprint;
  }

  lemma ChatBlocksPlaced(counter: Counter, messages: seq<Message>, tenant: string, last: int)
    ensures forall b | b in ChatBlocks(counter, messages, tenant, last) ::
      (InPrefix(b) <==> PlacementKey(b) == Key(0, 0)) && (InPrefix(b) ==> !Droppable(b))
  {
  }

  /** The recorded prefix of a chat request is its deduplicated system messages, whatever the window. */
  lemma RecordedPrefix(s: Setting, request: Request)
    ensures var admitted := Admitted(request, s.tenant, []);
      admitted.Success? &&
      var r := Recorded(s, request, admitted.value);
      r.Success? ==>
        Contents(r.value.stable)
        == PrefixContents(s.norm, s.counter, request.messages, s.tenant, LastUser(request.messages))
  {
    var last := LastUser(request.messages);
    var admitted := Admitted(request, s.tenant, []).value;
    assert admitted == MessageBlocks(request.messages, s.tenant, last);
    var r := Recorded(s, request, admitted);
    if r.Success? {
      var counted := ChatBlocks(s.counter, request.messages, s.tenant, last);
      var deduped := Dedup(s.norm, counted);
      ChatPrefixBlocks(s.norm, s.counter, request.messages, s.tenant, last);
      SortedPrefix(deduped, Key(0, 0));
      if s.window.Some? {
        var ordered := OrderBlocks(deduped);
        var budget := PlanBudget(s.window.value, Reserved(request, s.reserved), s.counter.exact, |deduped|);
        var available := budget.value.Available();
        KeptPrefix(ordered, available);
        ReorderIsIdentity(deduped, KeptBy(RequiredBlocks(ordered), Taken(ordered, available)));
      }
    }
  }

  /**
    The stable prefix of a compiled chat request says exactly what its system messages say, if and
    only if no system message is masked by an earlier turn with the same normalised content.
   */
  lemma PrefixExact(s: Setting, request: Request)
    ensures var r := Recorded(s, request, Admitted(request, s.tenant, []).value);
      r.Success? ==>
        (Contents(r.value.stable) == FirstOfEach(s.norm, SystemContents(request.messages))
         <==> !SomeMasked(s.norm, request.messages))
  {
    RecordedPrefix(s, request);
    PrefixIsSystem(s.norm, s.counter, request.messages, s.tenant, LastUser(request.messages));
  }

  /**
    Non-interference: two requests with the same system messages, none of them masked, compile to
    the same stable prefix whatever their other turns, windows, reservations, counters and tenants.
   */
  lemma PrefixNonInterference(s1: Setting, request1: Request, s2: Setting, request2: Request)
    requires s1.norm == s2.norm
    requires SystemContents(request1.messages) == SystemContents(request2.messages)
    requires !SomeMasked(s1.norm, request1.messages) && !SomeMasked(s2.norm, request2.messages)
    ensures var r1 := Recorded(s1, request1, Admitted(request1, s1.tenant, []).value);
      var r2 := Recorded(s2, request2, Admitted(request2, s2.tenant, []).value);
      r1.Success? && r2.Success? ==> Contents(r1.value.stable) == Contents(r2.value.stable)
  {
    PrefixExact(s1, request1);
    PrefixExact(s2, request2);
  }

  /**
    A required system message does get lost behind an earlier user turn that says the same: whatever the
    window, the compiled prefix is empty.
   */
  lemma MaskedSystemLost(s: Setting, request: Request, text: string)
    requires request.messages == [Message("user", text), Message("system", text)]
    ensures var r := Recorded(s, request, Admitted(request, s.tenant, []).value);
      && SomeMasked(s.norm, request.messages) && FirstOfEach(s.norm, SystemContents(request.messages)) == [text]
      && (r.Success? ==> Contents(r.value.stable) == [])
  {
    RecordedPrefix(s, request);
    hide Recorded;
    MaskedPair(s.norm, text);
    PairPrefixEmpty(s.norm, s.counter, text, s.tenant, LastUser(request.messages));
  }

  lemma MaskedPair(norm: Normal, text: string)
    ensures var messages := [Message("user", text), Message("system", text)];
      SomeMasked(norm, messages) && FirstOfEach(norm, SystemContents(messages)) == [text]
  {
    var messages := [Message("user", text), Message("system", text)];
    assert norm(messages[0].content) == norm(messages[1].content);
    assert Masked(norm, messages, 1);
    assert messages[..1] == [messages[0]] && [messages[0]][..0] == [];
    assert SystemContents([]) == [];
    assert SystemContents([messages[0]]) == [] + [];
    assert SystemContents(messages) == [] + [text];
    assert [text][..0] == [] && FirstOfEach(norm, []) == [];
    assert FirstOfEach(norm, [text]) == [] + [text];
  }

  lemma PairPrefixEmpty(norm: Normal, counter: Counter, text: string, tenant: string, last: int)
    ensures PrefixContents(norm, counter, [Message("user", text), Message("system", text)], tenant, last) == []
  {
    hide PrefixContents;
    var messages := [Message("user", text), Message("system", text)];
    assert messages[..1] == [messages[0]] && [messages[0]][..0] == [];
    PrefixContentsStep(norm, counter, messages, tenant, last);
    PrefixContentsStep(norm, counter, [messages[0]], tenant, last);
    NothingHasNoPrefix(norm, counter, tenant, last);
    assert norm(messages[0].content) == norm(messages[1].content);
  }

  lemma NothingHasNoPrefix(norm: Normal, counter: Counter, tenant: string, last: int)
    ensures PrefixContents(norm, counter, [], tenant, last) == []
  {
  }
}
