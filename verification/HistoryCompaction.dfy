/** Compaction of superseded tool results in a chat history (wirestudio/agent/agent.py:169-218).
    The JSON text of a tool's input is a parameter. */
module HistoryCompaction {
  import opened Options
  import opened Text

  /** `Parts` stands for any content that is not a string. */
  datatype Content = Plain(text: string) | Parts(id: nat)

  datatype Block =
    | ToolUse(id: string, name: string, input: nat)
    | ToolResult(id: string, content: Content)
    | OtherBlock(text: string)

  datatype Role = Assistant | User | OtherRole

  /** `blocks` is None when the content is not a list. */
  datatype Message = Message(role: Role, blocks: Option<seq<Block>>)

  const SUPERSEDABLE := {"render", "validate", "kicad_schematic", "kicad_pcb", "fab_bom", "fab_cpl",
                         "fab_status", "list_boards", "search_components", "recommend", "library_detail",
                         "component_check", "board_check"}

  const TRIM_FLOOR := 400

  /** A recorded call: its id, its tool, and the tool with the input's JSON text. */
  datatype Call = Call(id: string, tool: string, key: string)

  function BlocksOf(m: Message, role: Role): seq<Block>
  {
    if m.role == role && m.blocks.Some? then m.blocks.value else []
  }

  predicate Recorded(b: Block)
  {
    b.ToolUse? && b.name in SUPERSEDABLE
  }

  function CallOf(dumps: nat -> string, b: Block): Call
    requires b.ToolUse?
  {
    Call(b.id, b.name, b.name + dumps(b.input))
  }

  /** A dict keeps the place of an id that is set again. */
  function Put(calls: seq<Call>, c: Call): seq<Call>
  {
    if calls == [] then [c]
    else if calls[0].id == c.id then [c] + calls[1..]
    else [calls[0]] + Put(calls[1..], c)
  }

  function CallsIn(dumps: nat -> string, calls: seq<Call>, blocks: seq<Block>, n: nat): seq<Call>
    requires n <= |blocks|
  {
    if n == 0 then calls
    else
      var before := CallsIn(dumps, calls, blocks, n - 1);
      if Recorded(blocks[n - 1]) then Put(before, CallOf(dumps, blocks[n - 1])) else before
  }

  function Calls(dumps: nat -> string, messages: seq<Message>, n: nat): seq<Call>
    requires n <= |messages|
  {
    if n == 0 then []
    else
      var blocks := BlocksOf(messages[n - 1], Assistant);
      CallsIn(dumps, Calls(dumps, messages, n - 1), blocks, |blocks|)
  }

  function ToolOf(calls: seq<Call>, id: string): Option<string>
  {
    if calls == [] then None else if calls[0].id == id then Some(calls[0].tool) else ToolOf(calls[1..], id)
  }

  /** The id kept for a key: that of the last entry with it. */
  function Latest(calls: seq<Call>, n: nat, key: string): Option<string>
    requires n <= |calls|
  {
    if n == 0 then None else if calls[n - 1].key == key then Some(calls[n - 1].id) else Latest(calls, n - 1, key)
  }

  predicate Kept(calls: seq<Call>, id: string)
  {
    exists c :: c in calls && Latest(calls, |calls|, c.key) == Some(id)
  }

  const OPENING := "[superseded "

  function Digest(tool: string, length: nat): string
  {
    OPENING + tool + " result trimmed (" + Decimal(length) + " chars); a later " + tool
    + " call with the same input is current]"
  }

  predicate Opens(text: string)
  {
    OPENING <= text
  }

  predicate Trims(calls: seq<Call>, b: Block)
  {
    && b.ToolResult? && b.content.Plain?
    && ToolOf(calls, b.id).Some? && !Kept(calls, b.id)
    && |b.content.text| > TRIM_FLOOR && !Opens(b.content.text)
  }

  function Trimmed(calls: seq<Call>, b: Block): Block
  {
    if Trims(calls, b) then b.(content := Plain(Digest(ToolOf(calls, b.id).value, |b.content.text|))) else b
  }

  function TrimmedBlocks(calls: seq<Call>, blocks: seq<Block>): seq<Block>
  {
    seq(|blocks|, i requires 0 <= i < |blocks| => Trimmed(calls, blocks[i]))
  }

  function TrimmedMessage(calls: seq<Call>, m: Message): Message
  {
    if m.role == User && m.blocks.Some? then m.(blocks := Some(TrimmedBlocks(calls, m.blocks.value))) else m
  }

  function Compacted(dumps: nat -> string, messages: seq<Message>): seq<Message>
  {
    var calls := Calls(dumps, messages, |messages|);
    seq(|messages|, i requires 0 <= i < |messages| => TrimmedMessage(calls, messages[i]))
  }

  // -------------------------------------------------------------- characters

  function Size(b: Block): nat
  {
    if b.ToolResult? && b.content.Plain? then |b.content.text| else 0
  }

  function SizeOfBlocks(blocks: seq<Block>): nat
  {
    if blocks == [] then 0 else SizeOfBlocks(blocks[..|blocks| - 1]) + Size(blocks[|blocks| - 1])
  }

  function SizeOfAll(messages: seq<Message>): nat
  {
    if messages == [] then 0
    else SizeOfAll(messages[..|messages| - 1]) + SizeOfBlocks(BlocksOf(messages[|messages| - 1], User))
  }

  // --------------------------------------------------------------- in place

  method FindCalls(dumps: nat -> string, messages: array<Message>) returns (calls: seq<Call>)
    ensures calls == Calls(dumps, messages[..], messages.Length)
  {
    calls := [];
    for i := 0 to messages.Length
      invariant calls == Calls(dumps, messages[..], i)
    {
      if messages[i].role != Assistant || messages[i].blocks.None? { continue; }
      var blocks := messages[i].blocks.value;
      ghost var before := calls;
      for k := 0 to |blocks|
        invariant calls == CallsIn(dumps, before, blocks, k)
      {
        if Recorded(blocks[k]) {
          calls := Put(calls, CallOf(dumps, blocks[k]));
        }
      }
    }
  }

  lemma SizesOf(b: Block, after: Block)
    ensures Size(b) == if b.ToolResult? && b.content.Plain? then |b.content.text| else 0
    ensures Size(after) == if after.ToolResult? && after.content.Plain? then |after.content.text| else 0
  {
  }

  method CompactBlocks(calls: seq<Call>, blocks: seq<Block>) returns (after: seq<Block>, removed: int)
    ensures after == TrimmedBlocks(calls, blocks)
    ensures removed == SizeOfBlocks(blocks) - SizeOfBlocks(after)
  {
    hide Kept, ToolOf, Digest, Opens, Size, SizeOfBlocks;
    after, removed := blocks, 0;
    assert after[..0] == blocks[..0];
    for k := 0 to |blocks|
      invariant |after| == |blocks| && forall i :: k <= i < |blocks| ==> after[i] == blocks[i]
      invariant forall i :: 0 <= i < k ==> after[i] == Trimmed(calls, blocks[i])
      invariant removed == SizeOfBlocks(blocks[..k]) - SizeOfBlocks(after[..k])
    {
      ghost var before := after;
      var b := after[k];
      if b.ToolResult? && b.content.Plain? && ToolOf(calls, b.id).Some? && !Kept(calls, b.id) {
        var content := b.content.text;
        if |content| > TRIM_FLOOR && !Opens(content) {
          var digest := Digest(ToolOf(calls, b.id).value, |content|);
          after := after[k := b.(content := Plain(digest))];
          removed := removed + |content| - |digest|;
        }
      }
      OneMoreBlock(blocks, k);
      OneMoreBlock(after, k);
      assert after[..k] == before[..k];
      SizesOf(b, after[k]);
    }
    assert blocks[..|blocks|] == blocks && after[..|blocks|] == after;
  }

  lemma OneMoreBlock(blocks: seq<Block>, k: nat)
    requires k < |blocks|
    ensures SizeOfBlocks(blocks[..k + 1]) == SizeOfBlocks(blocks[..k]) + Size(blocks[k])
  {
    assert blocks[..k + 1][..k] == blocks[..k];
  }

  lemma OneMoreMessage(messages: seq<Message>, i: nat)
    requires i < |messages|
    ensures SizeOfAll(messages[..i + 1]) == SizeOfAll(messages[..i]) + SizeOfBlocks(BlocksOf(messages[i], User))
  {
    assert messages[..i + 1][..i] == messages[..i];
  }

  method CompactMessage(calls: seq<Call>, m: Message) returns (after: Message, removed: int)
    ensures after == TrimmedMessage(calls, m)
    ensures removed == SizeOfBlocks(BlocksOf(m, User)) - SizeOfBlocks(BlocksOf(after, User))
  {
    if m.role != User || m.blocks.None? { return m, 0; }
    var blocks, fewer := CompactBlocks(calls, m.blocks.value);
    return m.(blocks := Some(blocks)), fewer;
  }

  /** `compact_tool_results`. */
  method CompactToolResults(dumps: nat -> string, messages: array<Message>) returns (removed: int)
    modifies messages
    ensures messages[..] == Compacted(dumps, old(messages[..]))
    ensures removed == SizeOfAll(old(messages[..])) - SizeOfAll(messages[..])
  {
    hide TrimmedMessage, Calls, SizeOfAll, SizeOfBlocks, BlocksOf;
    var calls := FindCalls(dumps, messages);
    ghost var was := messages[..];
    removed := 0;
    for i := 0 to messages.Length
      invariant forall k :: 0 <= k < i ==> messages[k] == TrimmedMessage(calls, was[k])
      invariant forall k :: i <= k < messages.Length ==> messages[k] == was[k]
      invariant removed == SizeOfAll(was[..i]) - SizeOfAll(messages[..i])
    {
      ghost var done := messages[..i];
      var after, fewer := CompactMessage(calls, messages[i]);
      messages[i] := after;
      removed := removed + fewer;
      OneMoreMessage(was, i);
      OneMoreMessage(messages[..], i);
      assert messages[..][..i + 1] == messages[..i + 1] && messages[..][..i] == done;
    }
    assert was[..messages.Length] == was && messages[..messages.Length] == messages[..];
  }

  // -------------------------------------------------------------- properties

  lemma {:induction false} DecimalIsShort(n: nat)
    requires n >= 400
    ensures |Decimal(n)| + 397 <= n
  {
    assert |Decimal(n / 1000)| >= 1;
    if n >= 4000 {
      DecimalIsShort(n / 10);
    } else {
      var tens, hundreds := n / 10, n / 100;
      assert tens / 10 == hundreds;
      assert |Decimal(hundreds)| <= 2;
      assert |Decimal(tens)| <= 3;
    }
  }

  lemma ToolsAreShort(tool: string)
    requires tool in SUPERSEDABLE
    ensures |tool| <= 17
  {
  }

  lemma DigestLength(tool: string, length: nat)
    ensures |Digest(tool, length)| == 83 + 2 * |tool| + |Decimal(length)|
  {
  }

  ghost predicate ToolsNamed(calls: seq<Call>)
  {
    forall c | c in calls :: c.tool in SUPERSEDABLE
  }

  lemma {:induction false} PutKeepsNames(calls: seq<Call>, c: Call)
    requires ToolsNamed(calls) && c.tool in SUPERSEDABLE
    ensures ToolsNamed(Put(calls, c))
  {
    if calls != [] && calls[0].id != c.id {
      PutKeepsNames(calls[1..], c);
    }
  }

  lemma {:induction false} CallsInNamed(dumps: nat -> string, calls: seq<Call>, blocks: seq<Block>, n: nat)
    requires n <= |blocks| && ToolsNamed(calls)
    ensures ToolsNamed(CallsIn(dumps, calls, blocks, n))
  {
    if n > 0 {
      CallsInNamed(dumps, calls, blocks, n - 1);
      if Recorded(blocks[n - 1]) {
        PutKeepsNames(CallsIn(dumps, calls, blocks, n - 1), CallOf(dumps, blocks[n - 1]));
      }
    }
  }

  lemma {:induction false} CallsNamed(dumps: nat -> string, messages: seq<Message>, n: nat)
    requires n <= |messages|
    ensures ToolsNamed(Calls(dumps, messages, n))
  {
    if n > 0 {
      CallsNamed(dumps, messages, n - 1);
      var blocks := BlocksOf(messages[n - 1], Assistant);
      CallsInNamed(dumps, Calls(dumps, messages, n - 1), blocks, |blocks|);
    }
  }

  lemma {:induction false} ToolIsNamed(calls: seq<Call>, id: string)
    requires ToolsNamed(calls) && ToolOf(calls, id).Some?
    ensures ToolOf(calls, id).value in SUPERSEDABLE
  {
    if calls[0].id != id {
      ToolIsNamed(calls[1..], id);
    }
  }

  /** Every trim makes the result strictly shorter: the floor outweighs the longest digest. */
  lemma TrimShortens(calls: seq<Call>, b: Block)
    requires ToolsNamed(calls)
    ensures Size(Trimmed(calls, b)) <= Size(b)
    ensures Trims(calls, b) ==> Size(Trimmed(calls, b)) < Size(b)
  {
    if Trims(calls, b) {
      var tool, length := ToolOf(calls, b.id).value, |b.content.text|;
      ToolIsNamed(calls, b.id);
      ToolsAreShort(tool);
      DecimalIsShort(length);
      DigestLength(tool, length);
    }
  }

  /** A trimmed block is never trimmed again, whatever the calls. */
  lemma TrimOnce(calls: seq<Call>, b: Block)
    ensures Trimmed(calls, Trimmed(calls, b)) == Trimmed(calls, b)
  {
    if Trims(calls, b) {
      var tool, length := ToolOf(calls, b.id).value, |b.content.text|;
      var rest := tool + " result trimmed (" + Decimal(length) + " chars); a later " + tool
        + " call with the same input is current]";
      assert Digest(tool, length) == OPENING + rest;
    }
  }

  lemma TrimBlocksOnce(calls: seq<Call>, blocks: seq<Block>)
    ensures TrimmedBlocks(calls, TrimmedBlocks(calls, blocks)) == TrimmedBlocks(calls, blocks)
  {
    hide Trimmed;
    forall k | 0 <= k < |blocks| {
      TrimOnce(calls, blocks[k]);
    }
  }

  lemma {:induction false} CallsUntouched(dumps: nat -> string, a: seq<Message>, b: seq<Message>, n: nat)
    requires n <= |a| == |b| && forall i | 0 <= i < |a| :: BlocksOf(a[i], Assistant) == BlocksOf(b[i], Assistant)
    ensures Calls(dumps, a, n) == Calls(dumps, b, n)
  {
    if n > 0 {
      CallsUntouched(dumps, a, b, n - 1);
    }
  }

  /** A second pass changes nothing, so it removes 0 characters. */
  lemma CompactTwice(dumps: nat -> string, messages: seq<Message>)
    ensures Compacted(dumps, Compacted(dumps, messages)) == Compacted(dumps, messages)
  {
    var once, calls := Compacted(dumps, messages), Calls(dumps, messages, |messages|);
    CallsUntouched(dumps, messages, once, |messages|);
    forall i | 0 <= i < |messages| ensures TrimmedMessage(calls, once[i]) == once[i] {
      if messages[i].role == User && messages[i].blocks.Some? {
        TrimBlocksOnce(calls, messages[i].blocks.value);
      }
    }
  }

  lemma {:induction false} BlocksShrink(calls: seq<Call>, blocks: seq<Block>, after: seq<Block>)
    requires ToolsNamed(calls) && |after| == |blocks|
    requires forall i | 0 <= i < |blocks| :: after[i] == Trimmed(calls, blocks[i])
    ensures SizeOfBlocks(after) <= SizeOfBlocks(blocks)
    ensures SizeOfBlocks(after) == SizeOfBlocks(blocks) ==> after == blocks
  {
    if blocks != [] {
      var n := |blocks| - 1;
      BlocksShrink(calls, blocks[..n], after[..n]);
      TrimShortens(calls, blocks[n]);
      assert blocks == blocks[..n] + [blocks[n]] && after == after[..n] + [after[n]];
    }
  }

  lemma {:induction false} MessagesShrink(calls: seq<Call>, messages: seq<Message>, after: seq<Message>)
    requires ToolsNamed(calls) && |after| == |messages|
    requires forall i | 0 <= i < |messages| :: after[i] == TrimmedMessage(calls, messages[i])
    ensures SizeOfAll(after) <= SizeOfAll(messages)
    ensures SizeOfAll(after) == SizeOfAll(messages) ==> after == messages
  {
    if messages != [] {
      var n := |messages| - 1;
      MessagesShrink(calls, messages[..n], after[..n]);
      BlocksShrink(calls, BlocksOf(messages[n], User), BlocksOf(after[n], User));
      assert messages == messages[..n] + [messages[n]] && after == after[..n] + [after[n]];
    }
  }

  /** Compaction never adds a character, and removes none exactly when it changes nothing. */
  lemma RemovesExactly(dumps: nat -> string, messages: seq<Message>)
    ensures SizeOfAll(Compacted(dumps, messages)) <= SizeOfAll(messages)
    ensures SizeOfAll(Compacted(dumps, messages)) == SizeOfAll(messages) <==> Compacted(dumps, messages) == messages
  {
    CallsNamed(dumps, messages, |messages|);
    MessagesShrink(Calls(dumps, messages, |messages|), messages, Compacted(dumps, messages));
  }

  // ------------------------------------------------------- the latest is kept

  /** The recorded calls in message order. */
  function Made(dumps: nat -> string, messages: seq<Message>, n: nat): seq<Call>
    requires n <= |messages|
  {
    if n == 0 then []
    else
      var blocks := BlocksOf(messages[n - 1], Assistant);
      Made(dumps, messages, n - 1) + MadeIn(dumps, blocks, |blocks|)
  }

  function MadeIn(dumps: nat -> string, blocks: seq<Block>, n: nat): seq<Call>
    requires n <= |blocks|
  {
    if n == 0 then []
    else MadeIn(dumps, blocks, n - 1) + if Recorded(blocks[n - 1]) then [CallOf(dumps, blocks[n - 1])] else []
  }

  function PutAll(made: seq<Call>, n: nat): seq<Call>
    requires n <= |made|
  {
    if n == 0 then [] else Put(PutAll(made, n - 1), made[n - 1])
  }

  lemma {:induction false} PutAllPrefix(made: seq<Call>, more: seq<Call>, n: nat)
    requires n <= |made|
    ensures PutAll(made + more, n) == PutAll(made, n)
  {
    if n > 0 {
      PutAllPrefix(made, more, n - 1);
    }
  }

  lemma OneMorePut(made: seq<Call>, c: Call)
    ensures PutAll(made + [c], |made| + 1) == Put(PutAll(made, |made|), c)
  {
    PutAllPrefix(made, [c], |made|);
    hide Put;
  }

  lemma {:induction false} CallsInArePut(dumps: nat -> string, made: seq<Call>, blocks: seq<Block>, n: nat)
    requires n <= |blocks|
    ensures
      var all := made + MadeIn(dumps, blocks, n);
      CallsIn(dumps, PutAll(made, |made|), blocks, n) == PutAll(all, |all|)
  {
    hide Put, PutAll, CallOf;
    if n == 0 {
      assert made + [] == made;
    } else {
      CallsInArePut(dumps, made, blocks, n - 1);
      var before, all := made + MadeIn(dumps, blocks, n - 1), made + MadeIn(dumps, blocks, n);
      if Recorded(blocks[n - 1]) {
        assert MadeIn(dumps, blocks, n) == MadeIn(dumps, blocks, n - 1) + [CallOf(dumps, blocks[n - 1])];
        assert all == before + [CallOf(dumps, blocks[n - 1])];
        OneMorePut(before, CallOf(dumps, blocks[n - 1]));
      } else {
        assert all == before;
      }
    }
  }

  lemma {:induction false} CallsArePut(dumps: nat -> string, messages: seq<Message>, n: nat)
    requires n <= |messages|
    ensures Calls(dumps, messages, n) == PutAll(Made(dumps, messages, n), |Made(dumps, messages, n)|)
  {
    if n > 0 {
      var blocks := BlocksOf(messages[n - 1], Assistant);
      CallsArePut(dumps, messages, n - 1);
      CallsInArePut(dumps, Made(dumps, messages, n - 1), blocks, |blocks|);
    }
  }

  /** Where the id was first used, n when it was not. */
  function FirstUse(made: seq<Call>, n: nat, id: string): (k: nat)
    requires n <= |made|
    ensures k <= n && (k < n ==> made[k].id == id)
  {
    if n == 0 then 0
    else if FirstUse(made, n - 1, id) < n - 1 then FirstUse(made, n - 1, id)
    else if made[n - 1].id == id then n - 1
    else n
  }

  /** The key of the last call that used the id. */
  function FinalKey(made: seq<Call>, n: nat, id: string): Option<string>
    requires n <= |made|
  {
    if n == 0 then None else if made[n - 1].id == id then Some(made[n - 1].key) else FinalKey(made, n - 1, id)
  }

  lemma {:induction false} UsedIff(made: seq<Call>, n: nat, id: string)
    requires n <= |made|
    ensures FirstUse(made, n, id) < n <==> FinalKey(made, n, id).Some?
  {
    if n > 0 {
      UsedIff(made, n - 1, id);
    }
  }

  ghost predicate Ordered(calls: seq<Call>, made: seq<Call>, n: nat)
    requires n <= |made|
  {
    forall i, j :: 0 <= i < j < |calls| ==> FirstUse(made, n, calls[i].id) < FirstUse(made, n, calls[j].id)
  }

  ghost predicate FinallyKeyed(calls: seq<Call>, made: seq<Call>, n: nat)
    requires n <= |made|
  {
    forall i :: 0 <= i < |calls| ==> FinalKey(made, n, calls[i].id) == Some(calls[i].key)
  }

  ghost predicate HasEntry(calls: seq<Call>, id: string)
  {
    exists i :: 0 <= i < |calls| && calls[i].id == id
  }

  /** The dict after n calls: one entry an id, in order of first use, with its final key. */
  ghost predicate InFirstUseOrder(calls: seq<Call>, made: seq<Call>, n: nat)
    requires n <= |made|
  {
    && Ordered(calls, made, n) && FinallyKeyed(calls, made, n)
    && forall id :: FinalKey(made, n, id).Some? ==> HasEntry(calls, id)
  }

  lemma SameIdSamePlace(calls: seq<Call>, made: seq<Call>, n: nat, i: nat, j: nat)
    requires n <= |made| && Ordered(calls, made, n) && i < |calls| && j < |calls| && calls[i].id == calls[j].id
    ensures i == j
  {
    hide FirstUse;
  }

  lemma {:induction false} PutExactly(calls: seq<Call>, c: Call) returns (at: nat)
    ensures at <= |calls| && forall i :: 0 <= i < at ==> calls[i].id != c.id
    ensures at == |calls| ==> Put(calls, c) == calls + [c]
    ensures at < |calls| ==> calls[at].id == c.id && Put(calls, c) == calls[at := c]
  {
    if calls == [] || calls[0].id == c.id {
      at := 0;
    } else {
      var rest := PutExactly(calls[1..], c);
      at := rest + 1;
    }
  }

  lemma {:induction false} DictIsInFirstUseOrder(made: seq<Call>, n: nat)
    requires n <= |made|
    ensures InFirstUseOrder(PutAll(made, n), made, n)
  {
    hide InFirstUseOrder, Put;
    if n == 0 {
      NoEntries(made);
    } else {
      DictIsInFirstUseOrder(made, n - 1);
      OneMoreEntry(PutAll(made, n - 1), made, n - 1);
    }
  }

  lemma NoEntries(made: seq<Call>)
    ensures InFirstUseOrder([], made, 0)
  {
  }

  lemma OneMoreEntry(calls: seq<Call>, made: seq<Call>, n: nat)
    requires n < |made| && InFirstUseOrder(calls, made, n)
    ensures InFirstUseOrder(Put(calls, made[n]), made, n + 1)
  {
    hide InFirstUseOrder, Put;
    var at := PutExactly(calls, made[n]);
    if at == |calls| {
      AppendKeepsOrder(calls, made, n);
    } else {
      ReplaceKeepsOrder(calls, made, n, at);
    }
  }

  /** A further call moves no id that was used before. */
  lemma UsesStay(calls: seq<Call>, made: seq<Call>, n: nat, i: nat)
    requires n < |made| && FinallyKeyed(calls, made, n) && i < |calls|
    ensures FirstUse(made, n + 1, calls[i].id) == FirstUse(made, n, calls[i].id) < n
    ensures FinalKey(made, n + 1, calls[i].id)
         == if calls[i].id == made[n].id then Some(made[n].key) else Some(calls[i].key)
  {
    UsedIff(made, n, calls[i].id);
  }

  lemma AppendKeepsOrder(calls: seq<Call>, made: seq<Call>, n: nat)
    requires n < |made| && InFirstUseOrder(calls, made, n) && forall i :: 0 <= i < |calls| ==> calls[i].id != made[n].id
    ensures InFirstUseOrder(calls + [made[n]], made, n + 1)
  {
    var c, after := made[n], calls + [made[n]];
    UsedIff(made, n, c.id);
    assert FinalKey(made, n, c.id).None? by {
      assert !HasEntry(calls, c.id);
    }
    assert FirstUse(made, n + 1, c.id) == n && FinalKey(made, n + 1, c.id) == Some(c.key);
    forall i | 0 <= i < |calls|
      ensures FirstUse(made, n + 1, calls[i].id) == FirstUse(made, n, calls[i].id) < n
      ensures FinalKey(made, n + 1, calls[i].id) == Some(calls[i].key)
    {
      UsesStay(calls, made, n, i);
    }
    forall id ensures FinalKey(made, n + 1, id).Some? ==> HasEntry(after, id) {
      EntryStays(calls, after, id);
      assert after[|calls|] == c;
    }
    hide FirstUse, FinalKey, HasEntry;
  }

  lemma EntryStays(calls: seq<Call>, after: seq<Call>, id: string)
    requires |calls| <= |after| && forall i :: 0 <= i < |calls| ==> after[i].id == calls[i].id
    ensures HasEntry(calls, id) ==> HasEntry(after, id)
  {
    if i :| 0 <= i < |calls| && calls[i].id == id {
      assert after[i].id == id;
    }
  }

  lemma ReplaceKeepsOrder(calls: seq<Call>, made: seq<Call>, n: nat, at: nat)
    requires n < |made| && InFirstUseOrder(calls, made, n) && at < |calls| && calls[at].id == made[n].id
    ensures InFirstUseOrder(calls[at := made[n]], made, n + 1)
  {
    var c, after := made[n], calls[at := made[n]];
    forall i | 0 <= i < |calls|
      ensures after[i].id == calls[i].id && FirstUse(made, n + 1, calls[i].id) == FirstUse(made, n, calls[i].id)
      ensures FinalKey(made, n + 1, after[i].id) == Some(after[i].key)
    {
      UsesStay(calls, made, n, i);
      if calls[i].id == c.id {
        SameIdSamePlace(calls, made, n, i, at);
      }
    }
    forall id ensures FinalKey(made, n + 1, id).Some? ==> HasEntry(after, id) {
      EntryStays(calls, after, id);
      assert HasEntry(after, c.id) by {
        assert after[at].id == c.id;
      }
    }
    hide FirstUse, FinalKey, HasEntry;
  }

  lemma {:induction false} LatestIs(calls: seq<Call>, n: nat, k: nat)
    requires k < n <= |calls| && forall j | k < j < n :: calls[j].key != calls[k].key
    ensures Latest(calls, n, calls[k].key) == Some(calls[k].id)
  {
    if k < n - 1 {
      LatestIs(calls, n - 1, k);
    }
  }

  lemma {:induction false} LatestIsLast(calls: seq<Call>, n: nat, key: string) returns (k: nat)
    requires n <= |calls| && Latest(calls, n, key).Some?
    ensures k < n && calls[k].id == Latest(calls, n, key).value && calls[k].key == key
    ensures forall j :: k < j < n ==> calls[j].key != key
  {
    if calls[n - 1].key == key {
      k := n - 1;
    } else {
      k := LatestIsLast(calls, n - 1, key);
    }
  }

  /** Another id, first used later, ended up on the same tool and input. */
  ghost predicate Superseded(made: seq<Call>, id: string)
  {
    exists other :: other != id && FinalKey(made, |made|, other) == FinalKey(made, |made|, id)
                    && FirstUse(made, |made|, other) > FirstUse(made, |made|, id)
  }

  lemma KeptIffNotSuperseded(calls: seq<Call>, made: seq<Call>, id: string)
    requires InFirstUseOrder(calls, made, |made|) && FinalKey(made, |made|, id).Some?
    ensures Kept(calls, id) <==> !Superseded(made, id)
  {
    assert HasEntry(calls, id);
    var k :| 0 <= k < |calls| && calls[k].id == id;
    if j :| k < j < |calls| && calls[j].key == calls[k].key {
      LaterSupersedes(calls, made, k, j);
      NotLatest(calls, k, j, made);
    } else {
      LatestIs(calls, |calls|, k);
      assert calls[k] in calls && Kept(calls, id);
      LastIsNotSuperseded(calls, made, k);
    }
  }

  lemma LaterSupersedes(calls: seq<Call>, made: seq<Call>, k: nat, j: nat)
    requires InFirstUseOrder(calls, made, |made|) && k < j < |calls| && calls[j].key == calls[k].key
    ensures Superseded(made, calls[k].id)
  {
    var other, id := calls[j].id, calls[k].id;
    assert FirstUse(made, |made|, id) < FirstUse(made, |made|, other);
    assert FinalKey(made, |made|, other) == FinalKey(made, |made|, id);
    hide FirstUse, FinalKey;
  }

  lemma LastIsNotSuperseded(calls: seq<Call>, made: seq<Call>, k: nat)
    requires InFirstUseOrder(calls, made, |made|) && k < |calls|
    requires forall j :: k < j < |calls| ==> calls[j].key != calls[k].key
    ensures !Superseded(made, calls[k].id)
  {
    hide FirstUse, FinalKey;
    var id := calls[k].id;
    assert FinalKey(made, |made|, id) == Some(calls[k].key);
    forall other | other != id && FinalKey(made, |made|, other) == FinalKey(made, |made|, id)
      ensures FirstUse(made, |made|, other) < FirstUse(made, |made|, id)
    {
      assert HasEntry(calls, other);
      var m :| 0 <= m < |calls| && calls[m].id == other;
      assert FinalKey(made, |made|, calls[m].id) == Some(calls[m].key);
      assert m < k;
    }
  }

  lemma NotLatest(calls: seq<Call>, k: nat, j: nat, made: seq<Call>)
    requires k < j < |calls| && calls[j].key == calls[k].key && InFirstUseOrder(calls, made, |made|)
    ensures !Kept(calls, calls[k].id)
  {
    if Kept(calls, calls[k].id) {
      var c :| c in calls && Latest(calls, |calls|, c.key) == Some(calls[k].id);
      var m := LatestIsLast(calls, |calls|, c.key);
    }
  }

  lemma {:induction false} HasTool(calls: seq<Call>, id: string)
    ensures ToolOf(calls, id).Some? <==> exists i :: 0 <= i < |calls| && calls[i].id == id
  {
    if calls != [] && calls[0].id != id {
      HasTool(calls[1..], id);
      if i :| 0 <= i < |calls| && calls[i].id == id {
        assert calls[1..][i - 1].id == id;
      }
      if i :| 0 <= i < |calls[1..]| && calls[1..][i].id == id {
        assert calls[i + 1].id == id;
      }
    }
  }

  /** Exactly what is trimmed, in any history: a result longer than the floor, not yet trimmed,
      of a recorded call id that another id first used later supersedes. */
  lemma TrimmedExactly(dumps: nat -> string, messages: seq<Message>, id: string, text: string)
    ensures
      var made := Made(dumps, messages, |messages|);
      Trims(Calls(dumps, messages, |messages|), ToolResult(id, Plain(text)))
      <==> |text| > 400 && !("[superseded " <= text) && FinalKey(made, |made|, id).Some? && Superseded(made, id)
  {
    var made, calls := Made(dumps, messages, |messages|), Calls(dumps, messages, |messages|);
    CallsArePut(dumps, messages, |messages|);
    DictIsInFirstUseOrder(made, |made|);
    HasTool(calls, id);
    hide Made, Calls, PutAll, Kept, Superseded;
    if FinalKey(made, |made|, id).Some? {
      KeptIffNotSuperseded(calls, made, id);
    }
  }

  /** The tool of the last call that used the id. */
  function FinalTool(made: seq<Call>, n: nat, id: string): Option<string>
    requires n <= |made|
  {
    if n == 0 then None else if made[n - 1].id == id then Some(made[n - 1].tool) else FinalTool(made, n - 1, id)
  }

  lemma {:induction false} ToolOfPut(calls: seq<Call>, c: Call, id: string)
    ensures ToolOf(Put(calls, c), id) == if c.id == id then Some(c.tool) else ToolOf(calls, id)
  {
    if calls != [] && calls[0].id != c.id {
      ToolOfPut(calls[1..], c, id);
      assert Put(calls, c)[1..] == Put(calls[1..], c);
    } else if calls == [] {
      assert Put(calls, c)[1..] == [];
    } else {
      assert Put(calls, c)[1..] == calls[1..];
    }
  }

  lemma {:induction false} ToolIsFinal(made: seq<Call>, n: nat, id: string)
    requires n <= |made|
    ensures ToolOf(PutAll(made, n), id) == FinalTool(made, n, id)
  {
    hide Put, ToolOf;
    if n > 0 {
      ToolIsFinal(made, n - 1, id);
      ToolOfPut(PutAll(made, n - 1), made[n - 1], id);
    } else {
      NoTool(id);
    }
  }

  lemma NoTool(id: string)
    ensures ToolOf([], id) == None
  {
  }

  /** The digest that stands for a result, given its tool and length. */
  ghost predicate IsDigest(text: string, tool: Option<string>, length: nat)
  {
    tool.Some? && text == "[superseded " + tool.value + " result trimmed (" + Decimal(length)
      + " chars); a later " + tool.value + " call with the same input is current]"
  }

  /** A whole history after compaction, block by block: in the user's messages a result of a
      superseded call that is longer than 400 characters and not trimmed yet becomes its digest;
      every other block, and every message that is no list of blocks, stays. */
  lemma CompactedExactly(dumps: nat -> string, messages: seq<Message>, m: nat)
    requires m < |messages|
    ensures |Compacted(dumps, messages)| == |messages|
    ensures
      var before, after, made := messages[m], Compacted(dumps, messages)[m], Made(dumps, messages, |messages|);
      && (before.role != User || before.blocks.None? ==> after == before)
      && (before.role == User && before.blocks.Some? ==>
            && after.role == User && after.blocks.Some? && |after.blocks.value| == |before.blocks.value|
            && forall k :: 0 <= k < |before.blocks.value| ==>
                 BecomesDigest(made, before.blocks.value[k], after.blocks.value[k]))
  {
    hide Calls, Made, Trimmed, BecomesDigest;
    var blocks := messages[m].blocks;
    if messages[m].role == User && blocks.Some? {
      forall k | 0 <= k < |blocks.value|
        ensures BecomesDigest(Made(dumps, messages, |messages|), blocks.value[k],
                              Trimmed(Calls(dumps, messages, |messages|), blocks.value[k]))
      {
        BlockBecomes(dumps, messages, blocks.value[k]);
      }
    }
  }

  ghost predicate BecomesDigest(made: seq<Call>, before: Block, after: Block)
  {
    if before.ToolResult? && before.content.Plain? && |before.content.text| > 400
       && !("[superseded " <= before.content.text)
       && FinalKey(made, |made|, before.id).Some? && Superseded(made, before.id)
    then after.ToolResult? && after.id == before.id && after.content.Plain?
         && IsDigest(after.content.text, FinalTool(made, |made|, before.id), |before.content.text|)
    else after == before
  }

  lemma BlockBecomes(dumps: nat -> string, messages: seq<Message>, b: Block)
    ensures BecomesDigest(Made(dumps, messages, |messages|), b, Trimmed(Calls(dumps, messages, |messages|), b))
  {
    hide Made, Calls, PutAll, Kept, Superseded, FinalKey, FinalTool, ToolOf;
    var made := Made(dumps, messages, |messages|);
    if b.ToolResult? && b.content.Plain? {
      TrimmedExactly(dumps, messages, b.id, b.content.text);
      CallsArePut(dumps, messages, |messages|);
      ToolIsFinal(made, |made|, b.id);
    }
  }

  ghost predicate DistinctIds(made: seq<Call>)
  {
    forall i, j :: 0 <= i < j < |made| ==> made[i].id != made[j].id
  }

  lemma {:induction false} UsedOnce(made: seq<Call>, n: nat, k: nat)
    requires DistinctIds(made) && k < n <= |made|
    ensures FirstUse(made, n, made[k].id) == k && FinalKey(made, n, made[k].id) == Some(made[k].key)
  {
    if k < n - 1 {
      UsedOnce(made, n - 1, k);
    } else {
      NotUsedBefore(made, n - 1, k);
    }
  }

  lemma {:induction false} NotUsedBefore(made: seq<Call>, n: nat, k: nat)
    requires DistinctIds(made) && n <= k < |made|
    ensures FirstUse(made, n, made[k].id) == n
  {
    if n > 0 {
      NotUsedBefore(made, n - 1, k);
    }
  }

  /** So, in a history that uses no call id twice, a call's result is trimmed exactly when a
      later call has the same tool and input: the latest of each stays verbatim. */
  lemma TrimmedIffSuperseded(dumps: nat -> string, messages: seq<Message>, k: nat, text: string)
    requires DistinctIds(Made(dumps, messages, |messages|)) && k < |Made(dumps, messages, |messages|)|
    requires |text| > TRIM_FLOOR && !Opens(text)
    ensures
      var made := Made(dumps, messages, |messages|);
      Trims(Calls(dumps, messages, |messages|), ToolResult(made[k].id, Plain(text)))
      <==> exists j :: k < j < |made| && made[j].key == made[k].key
  {
    var made := Made(dumps, messages, |messages|);
    TrimmedExactly(dumps, messages, made[k].id, text);
    hide Made, Trims;
    UsedOnce(made, |made|, k);
    if j :| k < j < |made| && made[j].key == made[k].key {
      UsedOnce(made, |made|, j);
      assert Superseded(made, made[k].id);
    }
    if Superseded(made, made[k].id) {
      var other :| other != made[k].id && FinalKey(made, |made|, other) == FinalKey(made, |made|, made[k].id)
        && FirstUse(made, |made|, other) > FirstUse(made, |made|, made[k].id);
      UsedIff(made, |made|, other);
      var j := FirstUse(made, |made|, other);
      UsedOnce(made, |made|, j);
      assert made[j].key == made[k].key;
    }
  }

  lemma NoBraceBefore(a: string, x: string)
    requires '{' !in a
    ensures forall i :: 0 <= i < |a| ==> (a + x)[i] != '{'
  {
    forall i | 0 <= i < |a| ensures (a + x)[i] != '{' {
      assert (a + x)[i] == a[i] && a[i] in a;
    }
  }

  /** Keys are as good as the pair of tool and input text: JSON objects open with a brace and
      no tool's name has one. */
  lemma SameKeyIff(a: string, b: string, x: string, y: string)
    requires '{' !in a && '{' !in b && x != "" && x[0] == '{' && y != "" && y[0] == '{'
    ensures a + x == b + y <==> a == b && x == y
  {
    if a + x == b + y {
      assert (a + x)[|a|] == '{' && (b + y)[|b|] == '{';
      NoBraceBefore(a, x);
      NoBraceBefore(b, y);
      assert a == (a + x)[..|a|] && x == (a + x)[|a|..] && b == (b + y)[..|b|] && y == (b + y)[|b|..];
    }
  }

  /** An id used again for another round keeps its first place, so the latest result can lose
      to the one before: here the third `render` is the last, and it is the one trimmed. */
  lemma ReusedIdLosesTheLatest(dumps: nat -> string, text: string)
    requires |text| > TRIM_FLOOR && !Opens(text)
    ensures
      var first, second := ToolUse("a", "render", 0), ToolUse("b", "render", 0);
      var messages := [Message(Assistant, Some([first, second, first]))];
      && Made(dumps, messages, 1)[|Made(dumps, messages, 1)| - 1].id == "a"
      && Trims(Calls(dumps, messages, 1), ToolResult("a", Plain(text)))
  {
    var first, second := ToolUse("a", "render", 0), ToolUse("b", "render", 0);
    var blocks := [first, second, first];
    var messages := [Message(Assistant, Some(blocks))];
    var a, b := CallOf(dumps, first), CallOf(dumps, second);
    assert "render" in SUPERSEDABLE;
    OneTurn(dumps, blocks);
    hide Made, Calls, Trims, FinalKey, Superseded;
    ThreeCalls(dumps, first, second);
    TrimmedExactly(dumps, messages, "a", text);
    UsedAgain(a, b);
  }

  lemma OneTurn(dumps: nat -> string, blocks: seq<Block>)
    ensures Made(dumps, [Message(Assistant, Some(blocks))], 1) == MadeIn(dumps, blocks, |blocks|)
  {
    hide MadeIn;
    var messages := [Message(Assistant, Some(blocks))];
    assert BlocksOf(messages[0], Assistant) == blocks;
    assert Made(dumps, messages, 0) == [];
    assert Made(dumps, messages, 1) == [] + MadeIn(dumps, blocks, |blocks|);
  }

  lemma ThreeCalls(dumps: nat -> string, first: Block, second: Block)
    requires first.ToolUse? && first.name in SUPERSEDABLE && second.ToolUse? && second.name in SUPERSEDABLE
    ensures
      var a, b := CallOf(dumps, first), CallOf(dumps, second);
      MadeIn(dumps, [first, second, first], 3) == [a, b, a]
  {
    var blocks, a, b := [first, second, first], CallOf(dumps, first), CallOf(dumps, second);
    assert MadeIn(dumps, blocks, 0) == [];
    assert MadeIn(dumps, blocks, 1) == [] + [a];
    assert MadeIn(dumps, blocks, 2) == [a] + [b];
    assert MadeIn(dumps, blocks, 3) == [a, b] + [a];
  }

  lemma UsedAgain(a: Call, b: Call)
    requires a.id != b.id && a.key == b.key
    ensures FinalKey([a, b, a], 3, a.id).Some? && Superseded([a, b, a], a.id)
  {
    var made := [a, b, a];
    assert FirstUse(made, 1, a.id) == 0 && FirstUse(made, 1, b.id) == 1;
    assert FirstUse(made, 2, a.id) == 0 && FirstUse(made, 2, b.id) == 1;
    assert FinalKey(made, 2, b.id) == Some(b.key);
    assert FinalKey(made, 3, a.id) == FinalKey(made, 3, b.id);
    assert FirstUse(made, 3, b.id) > FirstUse(made, 3, a.id);
  }
}
