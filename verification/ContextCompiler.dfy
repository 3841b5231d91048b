/** The compiler pipeline: admit, count, deduplicate, order, truncate, split and account. */
module ContextCompiler {
  import opened Filtering
  import opened Wrappers
  import opened ContextBlocks
  import opened ContextOrdering
  import opened ContextOptimize

  // ---------------------------------------------------------------- requests

  datatype Message = Message(role: string, content: string)

  datatype Request = Request(messages: seq<Message>, maxTokens: Option<int>)

  datatype Counter = Counter(count: string -> nat, exact: bool)

  datatype CompileError =
    | TenantIsolation(blockId: string)
    | Configuration(message: string)
    | TooLarge(detail: ContextTooLarge)

  function Decimal(n: nat): (s: string)
    ensures s != ""
  {
    var digit := ['0', '1', '2', '3', '4', '5', '6', '7', '8', '9'][n % 10];
    if n < 10 then [digit] else Decimal(n / 10) + [digit]
  }

  function MessageId(index: nat): string {
    "msg-" + Decimal(index)
  }

  function ClassifyMessage(role: string, latestUser: bool): (ContextType, TrustLevel, Priority, Cacheability) {
    if role == "system" then (System, TrustSystem, Required, Stable)
    else if role == "tool" then (ToolResult, TrustTool, Normal, Volatile)
    else if role == "assistant" then (Conversation, TrustUser, High, Volatile)
    else if latestUser then (User, TrustUser, Required, Volatile)
    else (Conversation, TrustUser, High, Volatile)
  }

  function MessageBlock(message: Message, index: nat, tenant: string, latestUser: bool): Block {
    var (kind, trust, priority, cacheability) := ClassifyMessage(message.role, latestUser);
    Block(MessageId(index), message.content, kind, tenant, message.role, trust, priority, cacheability)
  }

  /** The index of the last user message, or -1. */
  function LastUser(messages: seq<Message>): int {
    if messages == [] then -1
    else if messages[|messages| - 1].role == "user" then |messages| - 1
    else LastUser(messages[..|messages| - 1])
  }

  function MessageBlocks(messages: seq<Message>, tenant: string, last: int): (blocks: seq<Block>)
    ensures |blocks| == |messages|
  {
    seq(|messages|, i requires 0 <= i < |messages| => MessageBlock(messages[i], i, tenant, i == last))
  }

  /** The first block of another tenant. */
  function FirstForeign(extra: seq<Block>, tenant: string): (id: Option<string>)
    ensures id.None? <==> forall b | b in extra :: b.tenant == tenant
  {
    if extra == [] then None
    else if extra[0].tenant != tenant then Some(extra[0].id)
    else FirstForeign(extra[1..], tenant)
  }

  /** Blocks supplied by the caller must belong to the tenant of the request. */
  function Admitted(request: Request, tenant: string, extra: seq<Block>): Result<seq<Block>, CompileError> {
    match FirstForeign(extra, tenant)
    case Some(id) => Failure(TenantIsolation(id))
    case None => Success(MessageBlocks(request.messages, tenant, LastUser(request.messages)) + extra)
  }

  method Admit(request: Request, tenant: string, extra: seq<Block>)
    returns (r: Result<seq<Block>, CompileError>)
    ensures r == Admitted(request, tenant, extra)
  {
    var blocks: seq<Block> := [];
    var lastUser := -1;
    for i := 0 to |request.messages|
      invariant lastUser == LastUser(request.messages[..i])
    {
      assert request.messages[..i + 1][..i] == request.messages[..i];
      if request.messages[i].role == "user" {
        lastUser := i;
      }
    }
    assert request.messages[..|request.messages|] == request.messages;
    ghost var expected := MessageBlocks(request.messages, tenant, lastUser);
    for i := 0 to |request.messages|
      invariant blocks == expected[..i]
    {
      blocks := blocks + [MessageBlock(request.messages[i], i, tenant, i == lastUser)];
    }
    for i := 0 to |extra|
      invariant blocks == expected + extra[..i]
      invariant FirstForeign(extra[i..], tenant) == FirstForeign(extra, tenant)
    {
      assert extra[i..][0] == extra[i] && extra[i..][1..] == extra[i + 1..];
      if extra[i].tenant != tenant {
        return Failure(TenantIsolation(extra[i].id));
      }
      blocks := blocks + [extra[i]];
    }
    assert extra[..|extra|] == extra && extra[|extra|..] == [];
    return Success(blocks);
  }

  // ------------------------------------------------------------------ budget

  datatype Budget = Budget(window: int, reserved: nat, margin: nat, framing: nat) {
    /** Clamped at zero. */
    function Available(): nat {
      var left := window - (reserved + margin) - framing;
      if left < 0 then 0 else left
    }
  }

  /** Two percent of the window rounded up, at least 32, unless the counter is exact. */
  function SafetyMargin(window: nat, exact: bool): nat {
    var fraction := (window + 49) / 50;
    if exact then 0 else if fraction < 32 then 32 else fraction
  }

  function PlanBudget(window: int, reserved: int, exact: bool, blockCount: nat): Result<Budget, CompileError> {
    if window <= 0 then Failure(Configuration("a context budget requires a positive context window"))
    else if reserved < 0 then Failure(Configuration("reserved output tokens cannot be negative"))
    else Success(Budget(window, reserved, SafetyMargin(window, exact), blockCount * 4))
  }

  const DEFAULT_RESERVED_OUTPUT := 256

  /** An explicit reservation, else the request's own limit unless it is absent or zero, else the default. */
  function Reserved(request: Request, reserved: Option<int>): int {
    match reserved
    case Some(n) => n
    case None =>
      match request.maxTokens
      case Some(n) => if n != 0 then n else DEFAULT_RESERVED_OUTPUT
      case None => DEFAULT_RESERVED_OUTPUT
  }

  // ---------------------------------------------------------------- pipeline

  function CountAll(counter: Counter, blocks: seq<Block>): (counted: seq<Counted>)
    ensures |counted| == |blocks|
    ensures forall i | 0 <= i < |blocks| :: counted[i] == Counted(blocks[i], counter.count(blocks[i].content))
  {
    seq(|blocks|, i requires 0 <= i < |blocks| => Counted(blocks[i], counter.count(blocks[i].content)))
  }

  /** The blocks of the prompt, in order, and the tokens truncation dropped. */
  function Selected(ordered: seq<Counted>, window: Option<int>, reserved: int, exact: bool)
    : Result<Truncated, CompileError>
  {
    match window
    case None => Success(Truncated(ordered, 0))
    case Some(w) =>
      match PlanBudget(w, reserved, exact, |ordered|)
      case Failure(e) => Failure(e)
      case Success(budget) =>
        match Truncate(ordered, budget.Available())
        case Failure(e) => Failure(TooLarge(e))
        case Success(t) => Success(Truncated(OrderBlocks(t.kept), t.dropped))
  }

  function OfKind(kind: ContextType): Counted -> bool {
    (b: Counted) => b.block.kind == kind
  }

  datatype Record = Record(
    blocks: seq<Counted>, messages: seq<Message>, byType: map<ContextType, nat>,
    before: nat, after: nat, deduplicated: nat, dropped: nat,
    stable: seq<Counted>, stableTokens: nat, volatileTokens: nat, reserved: int)

  /** Everything the compiler depends on besides the request. */
  datatype Setting = Setting(norm: Normal, counter: Counter, tenant: string, window: Option<int>, reserved: Option<int>)

  function AllTypes(): seq<ContextType> {
    [System, DeveloperPolicy, TenantPolicy, Conversation, LongTermMemory,
     Retrieval, ToolResult, AgentState, User, OutputContract]
  }

  function RoleFor(b: Block): string {
    if b.source in {"system", "user", "assistant", "tool"} then b.source
    else if b.kind == ToolResult then "tool"
    else if b.kind == User then "user"
    else if TrustOrdinal(b.trust) <= TrustOrdinal(TrustTenant) then "system"
    else "user"
  }

  function MessageFor(b: Counted): Message {
    Message(RoleFor(b.block), b.block.content)
  }

  function MessagesFor(blocks: seq<Counted>): seq<Message> {
    seq(|blocks|, i requires 0 <= i < |blocks| => MessageFor(blocks[i]))
  }

  /** The tokens of every context type, absent types included. */
  function KindTokens(blocks: seq<Counted>): map<ContextType, nat> {
    map kind | kind in AllTypes() :: Tokens(Filter(blocks, OfKind(kind)))
  }

  /** What a compilation of the admitted blocks must record. */
  ghost function Recorded(s: Setting, request: Request, admitted: seq<Block>): Result<Record, CompileError> {
    var counted := CountAll(s.counter, admitted);
    var deduped := Dedup(s.norm, counted);
    match Selected(OrderBlocks(deduped), s.window, Reserved(request, s.reserved), s.counter.exact)
    case Failure(e) => Failure(e)
    case Success(t) =>
      Success(Record(
        t.kept, MessagesFor(t.kept), KindTokens(t.kept),
        Tokens(counted), Tokens(t.kept), DuplicateTokens(s.norm, counted), t.dropped,
        Filter(t.kept, InPrefix), Tokens(Filter(t.kept, InPrefix)), Tokens(Filter(t.kept, Not(InPrefix))),
        Reserved(request, s.reserved)))
  }

  method SelectBlocks(ordered: seq<Counted>, window: Option<int>, reserved: int, exact: bool)
    returns (r: Result<Truncated, CompileError>)
    ensures r == Selected(ordered, window, reserved, exact)
  {
    if window.None? {
      return Success(Truncated(ordered, 0));
    }
    var budget := PlanBudget(window.value, reserved, exact, |ordered|);
    if budget.Failure? {
      return Failure(budget.error);
    }
    var truncated := TruncateToBudget(ordered, budget.value.Available());
    if truncated.Failure? {
      return Failure(TooLarge(truncated.error));
    }
    return Success(Truncated(OrderBlocks(truncated.value.kept), truncated.value.dropped));
  }

  method CountByType(blocks: seq<Counted>) returns (byType: map<ContextType, nat>)
    ensures byType == KindTokens(blocks)
  {
    hide AllTypes, Filter, Tokens, OfKind;
    NoTokens();
    byType := map kind | kind in AllTypes() :: 0;
    assert blocks[..0] == [];
    for i := 0 to |blocks|
      invariant byType == KindTokens(blocks[..i])
    {
      var b := blocks[i];
      assert blocks[..i + 1] == blocks[..i] + [b];
      EveryKindListed(b.block.kind);
      forall kind | kind in AllTypes()
        ensures Tokens(Filter(blocks[..i + 1], OfKind(kind)))
             == Tokens(Filter(blocks[..i], OfKind(kind))) + if b.block.kind == kind then b.tokens else 0
      {
        KindTokensStep(blocks[..i], b, kind);
      }
      byType := byType[b.block.kind := byType[b.block.kind] + b.tokens];
    }
    assert blocks[..|blocks|] == blocks;
  }

  lemma NoTokens()
    ensures forall kind :: Tokens(Filter([], OfKind(kind))) == 0
  {
  }

  lemma KindTokensStep(blocks: seq<Counted>, b: Counted, kind: ContextType)
    ensures Tokens(Filter(blocks + [b], OfKind(kind)))
         == Tokens(Filter(blocks, OfKind(kind))) + if b.block.kind == kind then b.tokens else 0
  {
    FilterConcat(blocks, [b], OfKind(kind));
    FilterAllOrNone([b], OfKind(kind));
    TokensConcat(Filter(blocks, OfKind(kind)), Filter([b], OfKind(kind)));
  }

  lemma EveryKindListed(kind: ContextType)
    ensures kind in AllTypes()
  {
    var i := match kind
      case System => 0 case DeveloperPolicy => 1 case TenantPolicy => 2 case Conversation => 3
      case LongTermMemory => 4 case Retrieval => 5 case ToolResult => 6 case AgentState => 7
      case User => 8 case OutputContract => 9;
    assert AllTypes()[i] == kind;
  }

  method Compile(s: Setting, request: Request, extra: seq<Block>) returns (r: Result<Record, CompileError>)
    ensures match Admitted(request, s.tenant, extra)
      case Failure(e) => r == Failure(e)
      case Success(admitted) => r == Recorded(s, request, admitted)
  {
    hide Admitted, Selected, Dedup, DuplicateTokens, Tokens, Filter, CountAll, Reserved, StableSort;
    hide KindTokens, MessagesFor;
    var reserved := Reserved(request, s.reserved);
    var admission := Admit(request, s.tenant, extra);
    if admission.Failure? {
      return Failure(admission.error);
    }
    var counted := CountAll(s.counter, admission.value);
    var before := Tokens(counted);
    var deduped, removed := Deduplicate(s.norm, counted);
    var selection := SelectBlocks(OrderBlocks(deduped), s.window, reserved, s.counter.exact);
    if selection.Failure? {
      return Failure(selection.error);
    }
    var ordered := selection.value.kept;
    SortSorts(PlacementKey, deduped);
    SelectedSorted(OrderBlocks(deduped), s.window, reserved, s.counter.exact);
    var stable, volatile := SplitStablePrefix(ordered);
    SplitExact(stable, volatile);
    var byType := CountByType(ordered);
    return Success(Record(
      ordered, MessagesFor(ordered), byType, before, Tokens(ordered), removed, selection.value.dropped,
      stable, Tokens(stable), Tokens(volatile), reserved));
  }

  lemma SelectedSorted(ordered: seq<Counted>, window: Option<int>, reserved: int, exact: bool)
    requires SortedBy(PlacementKey, ordered)
    ensures var r := Selected(ordered, window, reserved, exact);
      r.Success? ==> SortedBy(PlacementKey, r.value.kept)
  {
    var r := Selected(ordered, window, reserved, exact);
    if window.Some? && r.Success? {
      var available := PlanBudget(window.value, reserved, exact, |ordered|).value.Available();
      SortSorts(PlacementKey, Truncate(ordered, available).value.kept);
    }
  }

  /**
    What the selection means for its caller, who passes ordered blocks no two of which are equal and
    whose shared ids are harmless. It fails exactly for a bad budget or when the required blocks exceed
    the allowance the window leaves; otherwise the order is kept, no required block is missing, every
    token is kept or counted as dropped, and what is kept fits. Without a window nothing is dropped.
   */
  lemma SelectedMeaning(ordered: seq<Counted>, window: Option<int>, reserved: int, exact: bool)
    requires SortedBy(PlacementKey, ordered) && Distinct(ordered) && HarmlessIds(ordered)
    ensures var r := Selected(ordered, window, reserved, exact);
      && (r.Failure? <==>
          window.Some? && (window.value <= 0 || reserved < 0
                           || RequiredTokens(ordered) > Allowance(ordered, window.value, reserved, exact)))
      && (r.Success? ==>
            && SortedBy(PlacementKey, r.value.kept) && Subsequence(r.value.kept, ordered)
            && (forall b | b in ordered && !Droppable(b) :: b in r.value.kept)
            && Tokens(r.value.kept) + r.value.dropped == Tokens(ordered)
            && (window.None? ==> r.value.kept == ordered)
            && (window.Some? ==> Tokens(r.value.kept) <= Allowance(ordered, window.value, reserved, exact)))
  {
    hide Tokens, RequiredTokens, StableSort, Filter, HarmlessIds, Distinct, Truncate, SafetyMargin, Kept;
    match window {
      case None =>
        WholeIsSubsequence(ordered);
      case Some(w) =>
        if w > 0 && reserved >= 0 {
          var available := Allowance(ordered, w, reserved, exact);
          assert PlanBudget(w, reserved, exact, |ordered|).value.Available() == available;
          TruncationMeaning(ordered, available);
          if Truncate(ordered, available).Success? {
            KeptStaysOrdered(ordered, available);
          }
        }
    }
  }

  lemma WholeIsSubsequence(ordered: seq<Counted>)
    ensures Subsequence(ordered, ordered)
  {
    FilterAllOrNone(ordered, (b: Counted) => true);
  }

  lemma KeptStaysOrdered(ordered: seq<Counted>, available: int)
    requires SortedBy(PlacementKey, ordered) && Truncate(ordered, available).Success?
    ensures var kept := Truncate(ordered, available).value.kept;
      OrderBlocks(kept) == kept && SortedBy(PlacementKey, kept)
  {
    hide SortedBy, StableSort, Filter;
    FilterSorted(PlacementKey, ordered, KeptBy(RequiredBlocks(ordered), Taken(ordered, available)));
    SortFixedPoint(PlacementKey, Kept(ordered, available));
  }

  /** What a window leaves for these blocks after the reservation, the safety margin and their framing. */
  function Allowance(blocks: seq<Counted>, window: int, reserved: int, exact: bool): nat {
    var left := window - reserved - (if window > 0 then SafetyMargin(window, exact) else 0) - 4 * |blocks|;
    if left < 0 then 0 else left
  }
}
