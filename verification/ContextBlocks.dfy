/** Typed context blocks, their orders, and the sequence operations the compiler's stages share. */
module ContextBlocks {
  import opened Filtering
  import opened Wrappers

  datatype ContextType =
    | System | DeveloperPolicy | TenantPolicy | Conversation | LongTermMemory
    | Retrieval | ToolResult | AgentState | User | OutputContract

  /** From most to least trusted. */
  datatype TrustLevel = TrustSystem | TrustDeveloper | TrustTenant | TrustUser | TrustTool | TrustRetrieved | Untrusted

  datatype Priority = Required | High | Normal | Low | Optional

  datatype Cacheability = Stable | SemiStable | Volatile | Never

  function TrustOrdinal(t: TrustLevel): nat {
    match t
    case TrustSystem => 0 case TrustDeveloper => 1 case TrustTenant => 2 case TrustUser => 3
    case TrustTool => 4 case TrustRetrieved => 5 case Untrusted => 6
  }

  function PriorityOrdinal(p: Priority): nat {
    match p
    case Required => 0 case High => 1 case Normal => 2 case Low => 3 case Optional => 4
  }

  function CacheabilityOrdinal(c: Cacheability): nat {
    match c
    case Stable => 0 case SemiStable => 1 case Volatile => 2 case Never => 3
  }

  datatype Block = Block(
    id: string, content: string, kind: ContextType, tenant: string, source: string,
    trust: TrustLevel, priority: Priority, cacheability: Cacheability)

  /** A block whose tokens were counted on admission. */
  datatype Counted = Counted(block: Block, tokens: nat)

  predicate Droppable(b: Counted) {
    !b.block.priority.Required?
  }

  /** Stable and semi-stable blocks may sit in the cacheable prefix of the prompt. */
  predicate InPrefix(b: Counted) {
    b.block.cacheability.Stable? || b.block.cacheability.SemiStable?
  }

  // -------------------------------------------------------- sequences of blocks

  function Tokens(blocks: seq<Counted>): nat {
    if blocks == [] then 0 else blocks[0].tokens + Tokens(blocks[1..])
  }

  ghost predicate DistinctIds(blocks: seq<Counted>) {
    forall i, j | 0 <= i < j < |blocks| :: blocks[i].block.id != blocks[j].block.id
  }

  /** No droppable block that costs anything shares the id of a required one. */
  predicate HarmlessIds(blocks: seq<Counted>) {
    forall d, r | d in blocks && r in blocks && Droppable(d) && !Droppable(r) && d.tokens > 0 ::
      d.block.id != r.block.id
  }

  lemma DistinctIdsAreHarmless(blocks: seq<Counted>)
    requires DistinctIds(blocks)
    ensures Distinct(blocks) && HarmlessIds(blocks)
  {
    forall d, r | d in blocks && r in blocks && d != r ensures d.block.id != r.block.id {
      var i :| 0 <= i < |blocks| && blocks[i] == d;
      var j :| 0 <= j < |blocks| && blocks[j] == r;
    }
  }

  lemma {:induction false} TokensOfMember(blocks: seq<Counted>, b: Counted)
    requires b in blocks
    ensures Tokens(blocks) >= b.tokens
  {
    if b != blocks[0] {
      TokensOfMember(blocks[1..], b);
    }
  }

  lemma {:induction false} TokensConcat(a: seq<Counted>, b: seq<Counted>)
    ensures Tokens(a + b) == Tokens(a) + Tokens(b)
  {
    if a == [] {
      assert a + b == b;
    } else {
      assert (a + b)[1..] == a[1..] + b;
      TokensConcat(a[1..], b);
    }
  }

  /** What is kept and what is not make up the whole. */
  lemma {:induction false} FilterSplitsTokens(blocks: seq<Counted>, keep: Counted -> bool)
    ensures Tokens(Filter(blocks, keep)) + Tokens(Filter(blocks, Not(keep))) == Tokens(blocks)
  {
    if blocks != [] {
      FilterSplitsTokens(blocks[1..], keep);
      TokensConcat(if keep(blocks[0]) then [blocks[0]] else [], Filter(blocks[1..], keep));
      TokensConcat(if keep(blocks[0]) then [] else [blocks[0]], Filter(blocks[1..], Not(keep)));
    }
  }

  /** `part` is `whole` with some elements left out, in the same order. */
  ghost predicate Subsequence(part: seq<Counted>, whole: seq<Counted>) {
    exists keep: Counted -> bool :: part == Filter(whole, keep)
  }
}
