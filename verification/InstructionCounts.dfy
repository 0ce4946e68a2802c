/** Instruction counts over the inline call graph: a memoised search against plain expansion and call paths. */
module InstructionCounts {
  import opened Machine
  import opened InstructionTally

  // ----- the model of one function

  /** A call site; the target of an indirect call is unknown. */
  datatype CallSite = CallSite(callee: Option<string>, inlined: bool)

  type Word = n: nat | n <= U64_MAX

  datatype Block = Block(id: Word, executions: Word, opcodes: map<string, Word>, sites: seq<CallSite>)

  /** The instruction metadata of a function; a missing version is none, a missing text is empty. */
  datatype IrModel = IrModel(version: Option<Word>, status: string, scope: string, basis: string, excluded: string,
                             blocks: seq<Block>)

  /** A definition with its roles; `restricted` when it carries an analysis scope. */
  datatype IrFunction = IrFunction(inlined: bool, analyzed: bool, restricted: bool, model: Option<IrModel>)

  type Definitions = map<string, IrFunction>

  datatype Call = Call(callee: string, expand: bool, executions: Word)

  datatype CountError =
    | MissingModel | UnsupportedVersion | NotExact | UnsupportedContract | NoBlocks | DuplicateBlock
    | LegacyCalls | CallMismatch | IndirectCall
    | Overflow | RecursiveInline | InconsistentInline

  /** A block's counts per execution, without phi nodes. */
  ghost function BlockCounts(block: Block): (c: Counts)
    ensures Balanced(c)
  {
    var opcodes := map opcode | opcode in block.opcodes && opcode != "phi" ::
                     Count(block.opcodes[opcode], block.opcodes[opcode]);
    Counts(TotalOf(opcodes).stat, TotalOf(opcodes).dyn, opcodes)
  }

  function Occurrences(block: Block, opcode: string): (n: nat) {
    if opcode in block.opcodes then block.opcodes[opcode] else 0
  }

  /** The number of call-like instructions of a block. */
  function CallCount(block: Block): (n: nat) {
    Occurrences(block, "call") + Occurrences(block, "invoke") + Occurrences(block, "callbr")
  }

  /** The calls of a block's sites, weighted by the block's executions. */
  function SiteCalls(sites: seq<CallSite>, executions: Word): (r: Result<seq<Call>, CountError>) {
    if sites == [] then Ok([])
    else if sites[0].callee.None? then Err(IndirectCall)
    else
      match SiteCalls(sites[1..], executions)
      case Err(e) => Err(e)
      case Ok(rest) => Ok([Call(sites[0].callee.value, sites[0].inlined, executions)] + rest)
  }

  function BlockCalls(block: Block, legacy: bool): (r: Result<seq<Call>, CountError>) {
    if legacy then if CallCount(block) != 0 then Err(LegacyCalls) else Ok([])
    else if |block.sites| != CallCount(block) then Err(CallMismatch)
    else SiteCalls(block.sites, block.executions)
  }

  /** Blocks in order: counts so far, then the rest. */
  ghost function ReadBlocks(blocks: seq<Block>, legacy: bool, ids: set<Word>, counts: Counts, calls: seq<Call>):
    (r: Result<(Counts, seq<Call>), CountError>)
    decreases |blocks|
  {
    if blocks == [] then Ok((counts, calls))
    else
      var block := blocks[0];
      if block.id in ids then Err(DuplicateBlock)
      else if !IncludeFits(counts, BlockCounts(block), block.executions) then Err(Overflow)
      else
        match BlockCalls(block, legacy)
        case Err(e) => Err(e)
        case Ok(more) =>
          ReadBlocks(blocks[1..], legacy, ids + {block.id}, Included(counts, BlockCounts(block), block.executions),
              calls + more)
  }

  /** What a version leaves out of its counts. */
  function Exclusions(version: nat): (text: string) {
    if version == 1 then "debug-and-lifetime-intrinsics" else "phi-debug-and-lifetime-intrinsics"
  }

  /** The first reason not to read the metadata, in the order of the checks. */
  function ModelError(function_: IrFunction): (error: Option<CountError>) {
    match function_.model
    case None => Some(MissingModel)
    case Some(model) =>
      if model.version != Some(1) && model.version != Some(2) then Some(UnsupportedVersion)
      else if model.status != "exact" then Some(NotExact)
      else if function_.restricted || model.scope != "function-exclusive" || model.basis != "map-extraction-ir"
              || model.excluded != Exclusions(model.version.value) then Some(UnsupportedContract)
      else if model.blocks == [] then Some(NoBlocks)
      else None
  }

  /** A function's own counts and its call list. */
  ghost function ReadFunction(function_: IrFunction): (r: Result<(Counts, seq<Call>), CountError>) {
    match ModelError(function_)
    case Some(error) => Err(error)
    case None => ReadBlocks(function_.model.value.blocks, function_.model.value.version == Some(1), {}, EMPTY, [])
  }

  // ----- plain expansion

  /** Count a definition by expanding every inline call anew. */
  ghost function Expand(name: string, definitions: Definitions, stack: set<string>): (r: Result<Counts, CountError>)
    requires name in definitions
    decreases definitions.Keys - stack, 0, 0
  {
    if name in stack then Err(RecursiveInline)
    else
      match ReadFunction(definitions[name])
      case Err(e) => Err(e)
      case Ok((self, calls)) => ExpandCalls(calls, self, definitions, stack + {name})
  }

  /** Whether a call's inline flag agrees with its target's role. */
  predicate Consistent(call: Call, definitions: Definitions) {
    call.expand <==> call.callee in definitions && definitions[call.callee].inlined
  }

  ghost function ExpandCalls(calls: seq<Call>, counts: Counts, definitions: Definitions, stack: set<string>):
    (r: Result<Counts, CountError>)
    decreases definitions.Keys - stack, 1, |calls|
  {
    if calls == [] then Ok(counts)
    else
      var call := calls[0];
      if !Consistent(call, definitions) then Err(InconsistentInline)
      else if !call.expand then ExpandCalls(calls[1..], counts, definitions, stack)
      else
        match Expand(call.callee, definitions, stack)
        case Err(e) => Err(e)
        case Ok(callee) =>
          if !IncludeFits(counts, callee, call.executions) then Err(Overflow)
          else ExpandCalls(calls[1..], Included(counts, callee, call.executions), definitions, stack)
  }

  // ----- reading, as the source does it

  /** The opcode loop of one block. */
  method IncludeBlock(counts: Counts, block: Block) returns (r: Option<Counts>)
    requires Balanced(counts) && Small(counts)
    ensures r == if IncludeFits(counts, BlockCounts(block), block.executions)
                 then Some(Included(counts, BlockCounts(block), block.executions)) else None
    ensures r.Some? ==> Balanced(r.value) && Small(r.value)
  {
    hide Including, IncludeFits, Included, Balanced, Accumulate;
    ghost var source := BlockCounts(block);
    var sum, rest := counts, block.opcodes.Keys - {"phi"};
    IncludingStarts(counts, source, block.executions);
    IncludeStartFits(counts, source, block.executions);
    assert source.opcodes.Keys == rest;
    while rest != {}
      invariant rest <= source.opcodes.Keys && Including(counts, source, block.executions, rest, sum)
      invariant rest == {} && source.opcodes != map[] ==> IncludeFits(counts, source, block.executions)
      decreases rest
    {
      var opcode :| opcode in rest;
      IncludingStep(counts, source, block.executions, rest, sum, opcode);
      var dynamic := CheckedMultiply(block.opcodes[opcode], block.executions);
      if dynamic.None? {
        return None;
      }
      var next := Accumulate(sum, opcode, Count(block.opcodes[opcode], dynamic.value));
      if next.None? {
        return None;
      }
      IncludingLast(counts, source, block.executions, rest, opcode, sum);
      sum, rest := next.value, rest - {opcode};
    }
    IncludingEnds(counts, source, block.executions, sum);
    IncludedSmall(counts, source, block.executions);
    r := Some(sum);
  }

  method ReadSites(sites: seq<CallSite>, executions: Word) returns (r: Result<seq<Call>, CountError>)
    ensures r == SiteCalls(sites, executions)
  {
    var calls := [];
    assert sites[0..] == sites;
    NoSites(SiteCalls(sites, executions));
    for k := 0 to |sites|
      invariant SiteCalls(sites, executions)
                == match SiteCalls(sites[k..], executions) case Err(e) => Err(e) case Ok(rest) => Ok(calls + rest)
    {
      assert sites[k..][1..] == sites[k + 1..];
      if sites[k].callee.None? {
        return Err(IndirectCall);
      }
      var call := Call(sites[k].callee.value, sites[k].inlined, executions);
      SitesNext(calls, call, SiteCalls(sites[k + 1..], executions));
      calls := calls + [call];
    }
    assert calls + [] == calls;
    r := Ok(calls);
  }

  lemma NoSites(rest: Result<seq<Call>, CountError>)
    ensures rest == match rest case Err(e) => Err(e) case Ok(calls) => Ok([] + calls)
  {
    if rest.Ok? {
      assert [] + rest.value == rest.value;
    }
  }

  lemma SitesNext(calls: seq<Call>, call: Call, rest: Result<seq<Call>, CountError>)
    ensures rest.Ok? ==> calls + ([call] + rest.value) == (calls + [call]) + rest.value
  {
  }

  // ----- what a function's counts and calls are

  /** Every site of a block is described: none in a legacy model, otherwise one for each call-like instruction. */
  ghost predicate SitesDescribed(block: Block, legacy: bool) {
    var callLike := Occurrences(block, "call") + Occurrences(block, "invoke") + Occurrences(block, "callbr");
    if legacy then callLike == 0
    else |block.sites| == callLike && forall j :: 0 <= j < |block.sites| ==> block.sites[j].callee.Some?
  }

  ghost predicate BlocksDescribed(blocks: seq<Block>, legacy: bool) {
    && (forall i, j :: 0 <= i < j < |blocks| ==> blocks[i].id != blocks[j].id)
    && forall i :: 0 <= i < |blocks| ==> SitesDescribed(blocks[i], legacy)
  }

  /** The metadata is an exact, unrestricted, function-exclusive count of a known version, block by block. */
  ghost predicate Described(function_: IrFunction) {
    && function_.model.Some? && !function_.restricted
    && var model := function_.model.value;
       && ((model.version == Some(1) && model.excluded == "debug-and-lifetime-intrinsics")
           || (model.version == Some(2) && model.excluded == "phi-debug-and-lifetime-intrinsics"))
       && model.status == "exact" && model.scope == "function-exclusive" && model.basis == "map-extraction-ir"
       && model.blocks != [] && BlocksDescribed(model.blocks, model.version == Some(1))
  }

  /** The calls are those of the sites, block by block, each executed as often as its own block. */
  ghost predicate CallsListed(calls: seq<Call>, blocks: seq<Block>)
    decreases |blocks|
  {
    if blocks == [] then calls == []
    else
      var sites := blocks[0].sites;
      && |sites| <= |calls|
      && (forall j :: 0 <= j < |sites| ==>
            && sites[j].callee == Some(calls[j].callee) && calls[j].expand == sites[j].inlined
            && calls[j].executions == blocks[0].executions)
      && CallsListed(calls[|sites|..], blocks[1..])
  }

  /** Occurrences of an opcode over all blocks, and occurrences times executions; phi nodes are not counted. */
  ghost function OwnCount(blocks: seq<Block>, opcode: string): (c: Count) {
    if blocks == [] || opcode == "phi" then Count(0, 0)
    else
      var n, rest := Occurrences(blocks[0], opcode), OwnCount(blocks[1..], opcode);
      Count(n + rest.stat, n * blocks[0].executions + rest.dyn)
  }

  /** What the counts and calls of a described function are. */
  ghost predicate FunctionRead(function_: IrFunction, counts: Counts, calls: seq<Call>) {
    && Described(function_)
    && var model := function_.model.value;
       && (forall opcode :: At(counts.opcodes, opcode) == OwnCount(model.blocks, opcode))
       && if model.version == Some(1) then calls == [] else CallsListed(calls, model.blocks)
  }

  lemma {:induction false} SitesListed(sites: seq<CallSite>, executions: Word)
    ensures match SiteCalls(sites, executions)
            case Err(e) => e == IndirectCall && exists j :: 0 <= j < |sites| && sites[j].callee.None?
            case Ok(calls) =>
              && |calls| == |sites|
              && forall j :: 0 <= j < |sites| ==> calls[j] == Call(calls[j].callee, sites[j].inlined, executions)
                                                  && sites[j].callee == Some(calls[j].callee)
  {
    if sites != [] {
      SitesListed(sites[1..], executions);
      assert forall j :: 0 < j < |sites| ==> sites[j] == sites[1..][j - 1];
      if sites[0].callee.Some? && SiteCalls(sites[1..], executions).Err? {
        var j :| 0 <= j < |sites[1..]| && sites[1..][j].callee.None?;
        assert sites[j + 1].callee.None?;
      }
    }
  }

  lemma BlockCountsAt(block: Block, opcode: string)
    ensures At(BlockCounts(block).opcodes, opcode)
            == if opcode == "phi" then Count(0, 0) else Count(Occurrences(block, opcode), Occurrences(block, opcode))
  {
  }

  /** The calls of one block are accepted exactly when its sites are described. */
  lemma BlockCallsListed(block: Block, legacy: bool)
    ensures BlockCalls(block, legacy).Ok? <==> SitesDescribed(block, legacy)
    ensures BlockCalls(block, legacy).Ok? ==>
              var calls := BlockCalls(block, legacy).value;
              if legacy then calls == []
              else
                && |calls| == |block.sites|
                && forall j :: 0 <= j < |calls| ==>
                     && block.sites[j].callee == Some(calls[j].callee) && calls[j].expand == block.sites[j].inlined
                     && calls[j].executions == block.executions
  {
    SitesListed(block.sites, block.executions);
  }

  lemma OwnCountNext(blocks: seq<Block>, counts: Counts, opcode: string)
    requires blocks != []
    ensures var next := Included(counts, BlockCounts(blocks[0]), blocks[0].executions);
            var rest, before := OwnCount(blocks[1..], opcode), At(counts.opcodes, opcode);
            Count(At(next.opcodes, opcode).stat + rest.stat, At(next.opcodes, opcode).dyn + rest.dyn)
            == Count(before.stat + OwnCount(blocks, opcode).stat, before.dyn + OwnCount(blocks, opcode).dyn)
  {
    hide Included, BlockCounts, Occurrences;
    IncludedAt(counts, BlockCounts(blocks[0]), blocks[0].executions, opcode);
    BlockCountsAt(blocks[0], opcode);
  }

  lemma {:induction false} BlocksRead(blocks: seq<Block>, legacy: bool, ids: set<Word>, counts: Counts,
                                      calls: seq<Call>)
    requires ReadBlocks(blocks, legacy, ids, counts, calls).Ok?
    ensures BlocksDescribed(blocks, legacy) && forall i :: 0 <= i < |blocks| ==> blocks[i].id !in ids
    ensures var (total, all) := ReadBlocks(blocks, legacy, ids, counts, calls).value;
            && calls <= all && (if legacy then all == calls else CallsListed(all[|calls|..], blocks))
            && forall opcode ::
                 At(total.opcodes, opcode) == Count(At(counts.opcodes, opcode).stat + OwnCount(blocks, opcode).stat,
                                                    At(counts.opcodes, opcode).dyn + OwnCount(blocks, opcode).dyn)
    decreases |blocks|
  {
    hide Included, IncludeFits, BlockCounts, BlockCalls, At, OwnCount, SitesDescribed;
    var (total, all) := ReadBlocks(blocks, legacy, ids, counts, calls).value;
    if blocks == [] {
      NothingOwn(counts);
    } else {
      var next := Included(counts, BlockCounts(blocks[0]), blocks[0].executions);
      var more := BlockCalls(blocks[0], legacy).value;
      BlockCallsListed(blocks[0], legacy);
      BlocksRead(blocks[1..], legacy, ids + {blocks[0].id}, next, calls + more);
      assert forall i :: 0 < i < |blocks| ==> blocks[i] == blocks[1..][i - 1];
      forall opcode
        ensures At(total.opcodes, opcode) == Count(At(counts.opcodes, opcode).stat + OwnCount(blocks, opcode).stat,
                                                   At(counts.opcodes, opcode).dyn + OwnCount(blocks, opcode).dyn)
      {
        OwnCountNext(blocks, counts, opcode);
      }
      if !legacy {
        var mine := all[|calls|..];
        assert mine[|more|..] == all[|calls + more|..];
        assert mine[..|more|] == more;
        assert forall j :: 0 <= j < |more| ==> mine[j] == more[j];
      }
    }
  }

  lemma NothingOwn(counts: Counts)
    ensures forall opcode ::
              At(counts.opcodes, opcode) == Count(At(counts.opcodes, opcode).stat + OwnCount([], opcode).stat,
                                                  At(counts.opcodes, opcode).dyn + OwnCount([], opcode).dyn)
  {
  }

  /** Described blocks can only fail by overflow. */
  lemma {:induction false} DescribedReads(blocks: seq<Block>, legacy: bool, ids: set<Word>, counts: Counts,
                                          calls: seq<Call>)
    requires BlocksDescribed(blocks, legacy) && forall i :: 0 <= i < |blocks| ==> blocks[i].id !in ids
    ensures ReadBlocks(blocks, legacy, ids, counts, calls).Ok?
            || ReadBlocks(blocks, legacy, ids, counts, calls) == Err(Overflow)
    decreases |blocks|
  {
    hide Included, IncludeFits, BlockCounts, BlockCalls, SitesDescribed;
    if blocks != [] {
      BlockCallsListed(blocks[0], legacy);
      var next := Included(counts, BlockCounts(blocks[0]), blocks[0].executions);
      assert forall i :: 0 < i < |blocks| ==> blocks[i] == blocks[1..][i - 1];
      if BlockCalls(blocks[0], legacy).Ok? {
        DescribedReads(blocks[1..], legacy, ids + {blocks[0].id}, next, calls + BlockCalls(blocks[0], legacy).value);
      }
    }
  }

  /** The result of reading a function: its own counts and calls, only for a described one; else a reason. */
  lemma FunctionMeaning(function_: IrFunction)
    ensures match ReadFunction(function_)
            case Ok((counts, calls)) => FunctionRead(function_, counts, calls)
            case Err(e) => e == Overflow || !Described(function_)
  {
    hide ReadBlocks, BlocksDescribed, CallsListed;
    if ModelError(function_).None? {
      var blocks, legacy := function_.model.value.blocks, function_.model.value.version == Some(1);
      if ReadBlocks(blocks, legacy, {}, EMPTY, []).Ok? {
        BlocksRead(blocks, legacy, {}, EMPTY, []);
        var all := ReadBlocks(blocks, legacy, {}, EMPTY, []).value.1;
        assert all[0..] == all;
      } else if BlocksDescribed(blocks, legacy) {
        DescribedReads(blocks, legacy, {}, EMPTY, []);
      }
    }
  }

  /**
   * Read the own counts and the calls of a function. A function that is described fails only by overflow; no other
   * is read.
   */
  method ReadFunctionModel(function_: IrFunction) returns (r: Result<(Counts, seq<Call>), CountError>)
    ensures r == ReadFunction(function_)
    ensures r.Ok? ==> Balanced(r.value.0) && Small(r.value.0)
    ensures r.Ok? ==> FunctionRead(function_, r.value.0, r.value.1)
    ensures r.Err? ==> r.error == Overflow || !Described(function_)
  {
    FunctionMeaning(function_);
    hide FunctionRead, Described;
    hide BlockCounts, IncludeFits, Included, Balanced;
    if function_.model.None? {
      return Err(MissingModel);
    }
    var model := function_.model.value;
    if model.version != Some(1) && model.version != Some(2) {
      return Err(UnsupportedVersion);
    }
    if model.status != "exact" {
      return Err(NotExact);
    }
    var legacy := model.version == Some(1);
    var exclusions := if legacy then "debug-and-lifetime-intrinsics" else "phi-debug-and-lifetime-intrinsics";
    if function_.restricted || model.scope != "function-exclusive" || model.basis != "map-extraction-ir"
       || model.excluded != exclusions {
      return Err(UnsupportedContract);
    }
    var blocks := model.blocks;
    if blocks == [] {
      return Err(NoBlocks);
    }
    var ids, counts, calls := {}, EMPTY, [];
    EmptyBalanced();
    for k := 0 to |blocks|
      invariant Balanced(counts) && Small(counts)
      invariant ReadBlocks(blocks, legacy, {}, EMPTY, [])
                == ReadBlocks(blocks[k..], legacy, ids, counts, calls)
    {
      assert blocks[k..][1..] == blocks[k + 1..];
      if blocks[k].id in ids {
        return Err(DuplicateBlock);
      }
      ids := ids + {blocks[k].id};
      var included := IncludeBlock(counts, blocks[k]);
      if included.None? {
        return Err(Overflow);
      }
      var more := ReadCalls(blocks[k], legacy);
      if more.Err? {
        return Err(more.error);
      }
      counts, calls := included.value, calls + more.value;
    }
    r := Ok((counts, calls));
  }

  lemma EmptyBalanced()
    ensures Balanced(EMPTY)
  {
  }

  method ReadCalls(block: Block, legacy: bool) returns (r: Result<seq<Call>, CountError>)
    ensures r == BlockCalls(block, legacy)
  {
    if legacy {
      return if CallCount(block) != 0 then Err(LegacyCalls) else Ok([]);
    }
    if |block.sites| != CallCount(block) {
      return Err(CallMismatch);
    }
    r := ReadSites(block.sites, block.executions);
  }

  // ----- stacks do not matter for what has been counted

  /** The functions that a definition expands inline. */
  ghost predicate Edge(caller: string, callee: string, definitions: Definitions) {
    && caller in definitions && ReadFunction(definitions[caller]).Ok?
    && exists call :: call in ReadFunction(definitions[caller]).value.1 && call.expand && call.callee == callee
  }

  /** With fewer active functions an expansion that succeeds gives the same counts. */
  lemma {:induction false} FewerActive(name: string, definitions: Definitions, more: set<string>, less: set<string>)
    requires name in definitions && less <= more && Expand(name, definitions, more).Ok?
    ensures Expand(name, definitions, less) == Expand(name, definitions, more)
    decreases definitions.Keys - more, 0, 0
  {
    hide ReadFunction;
    var (self, calls) := ReadFunction(definitions[name]).value;
    FewerActiveCalls(calls, self, definitions, more + {name}, less + {name});
  }

  lemma {:induction false} FewerActiveCalls(calls: seq<Call>, counts: Counts, definitions: Definitions,
                                            more: set<string>, less: set<string>)
    requires less <= more && ExpandCalls(calls, counts, definitions, more).Ok?
    ensures ExpandCalls(calls, counts, definitions, less) == ExpandCalls(calls, counts, definitions, more)
    decreases definitions.Keys - more, 1, |calls|
  {
    hide Expand, IncludeFits, Included;
    if calls != [] {
      var call := calls[0];
      if call.expand {
        FewerActive(call.callee, definitions, more, less);
        var callee := Expand(call.callee, definitions, more).value;
        FewerActiveCalls(calls[1..], Included(counts, callee, call.executions), definitions, more, less);
      } else {
        FewerActiveCalls(calls[1..], counts, definitions, more, less);
      }
    }
  }

  /** A set of functions that expand only one another. */
  ghost predicate Closed(names: set<string>, definitions: Definitions) {
    forall caller, callee :: caller in names && Edge(caller, callee, definitions) ==> callee in names
  }

  /** Active functions outside a closed set do not disturb the expansion of its members. */
  lemma {:induction false} UnrelatedActive(name: string, definitions: Definitions, names: set<string>,
                                           stack: set<string>, others: set<string>)
    requires name in definitions && name in names && Closed(names, definitions) && others !! names
    requires Expand(name, definitions, stack).Ok?
    ensures Expand(name, definitions, stack + others) == Expand(name, definitions, stack)
    decreases definitions.Keys - stack, 0, 0
  {
    hide ReadFunction, Closed;
    var (self, calls) := ReadFunction(definitions[name]).value;
    CalleesInside(name, calls, definitions, names);
    UnrelatedActiveCalls(calls, self, definitions, names, stack + {name}, others);
    assert stack + {name} + others == stack + others + {name};
  }

  lemma CalleesInside(name: string, calls: seq<Call>, definitions: Definitions, names: set<string>)
    requires name in definitions && name in names && Closed(names, definitions)
    requires ReadFunction(definitions[name]).Ok? && calls == ReadFunction(definitions[name]).value.1
    ensures forall call :: call in calls && call.expand ==> call.callee in names
  {
    hide ReadFunction;
    forall call | call in calls && call.expand
      ensures call.callee in names
    {
      assert Edge(name, call.callee, definitions);
    }
  }

  lemma {:induction false} UnrelatedActiveCalls(calls: seq<Call>, counts: Counts, definitions: Definitions,
                                                names: set<string>,
                                                stack: set<string>, others: set<string>)
    requires Closed(names, definitions) && others !! names && ExpandCalls(calls, counts, definitions, stack).Ok?
    requires forall call :: call in calls && call.expand ==> call.callee in names
    ensures ExpandCalls(calls, counts, definitions, stack + others) == ExpandCalls(calls, counts, definitions, stack)
    decreases definitions.Keys - stack, 1, |calls|
  {
    hide Expand, IncludeFits, Included, Closed;
    if calls != [] {
      var call := calls[0];
      assert call in calls;
      assert forall c :: c in calls[1..] ==> c in calls;
      if call.expand {
        UnrelatedActive(call.callee, definitions, names, stack, others);
        var callee := Expand(call.callee, definitions, stack).value;
        UnrelatedActiveCalls(calls[1..], Included(counts, callee, call.executions), definitions, names, stack, others);
      } else {
        UnrelatedActiveCalls(calls[1..], counts, definitions, names, stack, others);
      }
    }
  }

  // ----- the memoised search

  class Expansion {
    const definitions: Definitions
    var completed: map<string, Counts>
    var active: set<string>

    /** Memoised counts are plain expansions; completed functions expand only completed ones and are not active. */
    ghost predicate Valid()
      reads this
    {
      && completed.Keys <= definitions.Keys && active !! completed.Keys
      && Closed(completed.Keys, definitions)
      && forall name :: name in completed ==>
           Expand(name, definitions, {}) == Ok(completed[name]) && Balanced(completed[name]) && Small(completed[name])
    }

    constructor (definitions: Definitions)
      ensures this.definitions == definitions && Valid() && active == {}
    {
      this.definitions := definitions;
      completed, active := map[], {};
    }

    /** Count a definition, expanding each function at most once: the same answer as plain expansion. */
    method CountInstructions(name: string) returns (r: Result<Counts, CountError>)
      requires Valid() && name in definitions
      modifies this
      ensures r == Expand(name, definitions, old(active))
      ensures r.Ok? ==> Valid() && active == old(active) && name in completed && old(completed.Keys) <= completed.Keys
      ensures r.Ok? ==> Balanced(r.value) && Small(r.value)
      decreases definitions.Keys - active, 0
    {
      hide ReadFunction, Closed, Balanced;
      if name in completed {
        Remembered(name);
        return Ok(completed[name]);
      }
      if name in active {
        return Err(RecursiveInline);
      }
      active := active + {name};
      var model := ReadFunctionModel(definitions[name]);
      if model.Err? {
        return Err(model.error);
      }
      r := IncludeCalls(model.value.1, model.value.0);
      if r.Err? {
        return;
      }
      FewerActive(name, definitions, old(active), {});
      CompletedCloses(name, completed.Keys, definitions);
      active := active - {name};
      assert active == old(active);
      assert completed[name := r.value].Keys == completed.Keys + {name};
      completed := completed[name := r.value];
    }

    /** A memoised result is what expansion gives under the current active set. */
    lemma Remembered(name: string)
      requires Valid() && name in completed
      ensures Expand(name, definitions, active) == Ok(completed[name])
    {
      hide Expand, Closed;
      UnrelatedActive(name, definitions, completed.Keys, {}, active);
      assert {} + active == active;
    }

    /** Add the counts of every inline call to a function's own. */
    method IncludeCalls(calls: seq<Call>, self: Counts) returns (r: Result<Counts, CountError>)
      requires Valid() && Balanced(self) && Small(self)
      modifies this
      ensures r == ExpandCalls(calls, self, definitions, old(active))
      ensures r.Ok? ==> Valid() && active == old(active) && old(completed.Keys) <= completed.Keys
      ensures r.Ok? ==> forall call :: call in calls && call.expand ==> call.callee in completed
      ensures r.Ok? ==> Balanced(r.value) && Small(r.value)
      decreases definitions.Keys - active, 1
    {
      hide Expand, Closed, Balanced, IncludeFits, Included;
      var counts := self;
      for k := 0 to |calls|
        invariant Valid() && active == old(active) && old(completed.Keys) <= completed.Keys
        invariant Balanced(counts) && Small(counts)
        invariant ExpandCalls(calls, self, definitions, active) == ExpandCalls(calls[k..], counts, definitions, active)
        invariant forall j :: 0 <= j < k && calls[j].expand ==> calls[j].callee in completed
      {
        assert calls[k..][1..] == calls[k + 1..];
        var call := calls[k];
        var inlineDefinition := call.callee in definitions && definitions[call.callee].inlined;
        if call.expand != inlineDefinition {
          return Err(InconsistentInline);
        }
        if !call.expand {
          continue;
        }
        var callee := CountInstructions(call.callee);
        if callee.Err? {
          return Err(callee.error);
        }
        EntriesSmall(callee.value);
        var next := Include(counts, callee.value, call.executions);
        if next.None? {
          return Err(Overflow);
        }
        counts := next.value;
      }
      r := Ok(counts);
    }
  }

  lemma CompletedCloses(name: string, completed: set<string>, definitions: Definitions)
    requires Closed(completed, definitions) && name in definitions && ReadFunction(definitions[name]).Ok?
    requires forall call :: call in ReadFunction(definitions[name]).value.1 && call.expand ==> call.callee in completed
    ensures Closed(completed + {name}, definitions)
  {
    hide ReadFunction;
  }
}
