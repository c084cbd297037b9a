/** The Kimi hook file: removing hook blocks, parsing installed events, and the add and remove
    reconciliations (crates/core/src/hook_status.rs). */
module KimiHooks {
  import opened Common
  import opened Text
  import opened KimiBlocks

  const HOOK_MARKER := "agent-aspect-hook"
  const LEGACY_MARKER := "checkpoint-hook"
  const EVENT_KEY := "event = "
  const COMMAND_KEY := "command = "

  predicate MarkedLine(l: string) {
    Contains(l, HOOK_MARKER)
  }

  predicate LegacyCommandLine(l: string) {
    COMMAND_KEY <= Trim(l) && Contains(Trim(l), LEGACY_MARKER)
  }

  /** A hook block written for this program. */
  predicate Ours(b: Block) {
    exists l :: l in b && MarkedLine(l)
  }

  predicate Legacy(b: Block) {
    exists l :: l in b && LegacyCommandLine(l)
  }

  function TrimQuotesStart(s: string): string {
    if s != "" && s[0] == '"' then TrimQuotesStart(s[1..]) else s
  }

  function TrimQuotesEnd(s: string): string {
    if s != "" && s[|s| - 1] == '"' then TrimQuotesEnd(s[..|s| - 1]) else s
  }

  function EventOf(l: string): Option<string> {
    var t := Trim(l);
    if EVENT_KEY <= t then Some(TrimQuotesEnd(TrimQuotesStart(Trim(t[|EVENT_KEY|..])))) else None
  }

  /** The event a block names last. */
  function LastEvent(b: Block): Option<string> {
    if b == [] then None
    else if EventOf(b[|b| - 1]).Some? then EventOf(b[|b| - 1])
    else LastEvent(b[..|b| - 1])
  }

  function Listed(e: Option<string>): seq<string> {
    if e.Some? then [e.value] else []
  }

  /** The events of the dropped blocks, in order. */
  function RemovedEvents(bs: seq<Block>, p: Block -> bool): seq<string> {
    if bs == [] then []
    else
      var b := bs[|bs| - 1];
      RemovedEvents(bs[..|bs| - 1], p) + (if IsHookBlock(b) && p(b) then Listed(LastEvent(b)) else [])
  }

  // ---- One line at a time ----

  /** Where a remover stands after the blocks `bs`: the last hook block is held back until it is complete. */
  ghost predicate Scanned(bs: seq<Block>, p: Block -> bool, inHook: bool, output: seq<string>,
                          block: Block, event: Option<string>, removed: seq<string>)
  {
    if inHook then
      && bs != [] && IsHookBlock(bs[|bs| - 1])
      && block == bs[|bs| - 1] && event == LastEvent(block)
      && output == Flatten(Keep(bs[..|bs| - 1], p))
      && removed == RemovedEvents(bs[..|bs| - 1], p)
    else
      && (bs != [] ==> !IsHookBlock(bs[|bs| - 1]))
      && block == []
      && output == Flatten(Keep(bs, p)) && removed == RemovedEvents(bs, p)
  }

  lemma KeepLast(bs: seq<Block>, p: Block -> bool)
    requires bs != []
    ensures var front, b := bs[..|bs| - 1], bs[|bs| - 1];
            var dropped := IsHookBlock(b) && p(b);
            && Flatten(Keep(bs, p)) == Flatten(Keep(front, p)) + (if dropped then [] else b)
            && RemovedEvents(bs, p) == RemovedEvents(front, p) + (if dropped then Listed(LastEvent(b)) else [])
  {
    var front, b := bs[..|bs| - 1], bs[|bs| - 1];
    if !(IsHookBlock(b) && p(b)) {
      var kept := Keep(front, p);
      assert (kept + [b])[..|kept|] == kept;
    } else {
      KeepDropped(bs, p);
    }
  }

  lemma LastBlockStays(front: seq<Block>, b: Block, p: Block -> bool)
    requires !IsHookBlock(b)
    ensures Flatten(Keep(front + [b], p)) == Flatten(Keep(front, p)) + b
    ensures RemovedEvents(front + [b], p) == RemovedEvents(front, p)
  {
    KeepLast(front + [b], p);
    assert (front + [b])[..|front|] == front;
    assert RemovedEvents(front, p) + [] == RemovedEvents(front, p);
  }

  /** A line outside hook blocks goes straight to the output. */
  lemma PassLine(bs: seq<Block>, l: string, p: Block -> bool)
    requires bs != [] ==> !IsHookBlock(bs[|bs| - 1]) || IsHeader(l)
    requires !IsHookHeader(l)
    ensures var bs' := AddLine(bs, l, IsHeader(l));
            && !IsHookBlock(bs'[|bs'| - 1])
            && Flatten(Keep(bs', p)) == Flatten(Keep(bs, p)) + [l]
            && RemovedEvents(bs', p) == RemovedEvents(bs, p)
  {
    hide Flatten, Keep, RemovedEvents, IsHookHeader, IsHeader;
    if IsHeader(l) || bs == [] {
      LastBlockStays(bs, [l], p);
    } else {
      var front, b := bs[..|bs| - 1], bs[|bs| - 1];
      assert bs == front + [b];
      LastBlockStays(front, b, p);
      assert b == [] || (b + [l])[0] == b[0];
      assert !IsHookBlock(b + [l]);
      LastBlockStays(front, b + [l], p);
    }
  }

  lemma LastEventSnoc(b: Block, l: string)
    ensures LastEvent(b + [l]) == if EventOf(l).Some? then EventOf(l) else LastEvent(b)
  {
    assert (b + [l])[..|b|] == b;
  }

  /** A line inside a hook block extends the block. */
  lemma ExtendBlock(bs: seq<Block>, l: string)
    requires bs != [] && IsHookBlock(bs[|bs| - 1]) && !IsHeader(l)
    ensures var bs' := AddLine(bs, l, false);
            && bs'[..|bs'| - 1] == bs[..|bs| - 1] && bs'[|bs'| - 1] == bs[|bs| - 1] + [l]
            && IsHookBlock(bs'[|bs'| - 1])
  {
  }

  lemma BlocksNext(ls: seq<string>, i: nat)
    requires i < |ls|
    ensures Blocks(ls[..i + 1]) == AddLine(Blocks(ls[..i]), ls[i], IsHeader(ls[i]))
  {
    assert ls[..i + 1] == ls[..i] + [ls[i]];
    BlocksSnoc(ls[..i], ls[i]);
  }

  lemma HeaderIsNoEvent(l: string)
    requires IsHeader(l)
    ensures EventOf(l) == None
  {
    assert "["[0] != EVENT_KEY[0];
  }

  lemma OnHookHeader(bs: seq<Block>, l: string, p: Block -> bool)
    requires IsHookHeader(l)
    ensures Scanned(AddLine(bs, l, IsHeader(l)), p, true, Flatten(Keep(bs, p)), [l], None, RemovedEvents(bs, p))
  {
    HookHeaderIsHeader(l);
    HeaderIsNoEvent(l);
    assert (bs + [[l]])[..|bs|] == bs;
    assert LastEvent([l][..0]) == None;
  }

  lemma OnOtherHeader(bs: seq<Block>, l: string, p: Block -> bool, event: Option<string>)
    requires IsHeader(l) && !IsHookHeader(l)
    ensures Scanned(AddLine(bs, l, IsHeader(l)), p, false, Flatten(Keep(bs, p)) + [l], [], event, RemovedEvents(bs, p))
  {
    PassLine(bs, l, p);
  }

  lemma OnLineInside(bs: seq<Block>, l: string, p: Block -> bool, output: seq<string>,
                     block: Block, event: Option<string>, removed: seq<string>)
    requires Scanned(bs, p, true, output, block, event, removed) && !IsHeader(l)
    ensures Scanned(AddLine(bs, l, IsHeader(l)), p, true, output, block + [l],
                    if EventOf(l).Some? then EventOf(l) else event, removed)
  {
    ExtendBlock(bs, l);
    LastEventSnoc(block, l);
  }

  lemma OnLineOutside(bs: seq<Block>, l: string, p: Block -> bool, output: seq<string>,
                      block: Block, event: Option<string>, removed: seq<string>)
    requires Scanned(bs, p, false, output, block, event, removed) && !IsHookHeader(l)
    ensures Scanned(AddLine(bs, l, IsHeader(l)), p, false, output + [l], block, event, removed)
  {
    PassLine(bs, l, p);
  }

  /** The held-back block is written out or dropped. */
  lemma OnFlush(bs: seq<Block>, p: Block -> bool, inHook: bool, output: seq<string>,
                block: Block, event: Option<string>, removed: seq<string>)
    requires Scanned(bs, p, inHook, output, block, event, removed)
    ensures Flatten(Keep(bs, p)) == if inHook && !p(block) then output + block else output
    ensures RemovedEvents(bs, p) == if inHook && p(block) then removed + Listed(event) else removed
  {
    if inHook {
      KeepLast(bs, p);
    }
  }

  // ---- The two removers ----

  /** `flush_kimi_block` */
  method FlushBlock(output: seq<string>, block: Block, inHook: bool, removed: seq<string>, event: Option<string>,
                    ghost bs: seq<Block>)
    returns (output': seq<string>, removed': seq<string>)
    requires Scanned(bs, Ours, inHook, output, block, event, removed)
    ensures output' == Flatten(Keep(bs, Ours)) && removed' == RemovedEvents(bs, Ours)
  {
    OnFlush(bs, Ours, inHook, output, block, event, removed);
    output', removed' := output, removed;
    if !inHook {
      return;
    }
    if Ours(block) {
      removed' := removed + Listed(event);
    } else {
      output' := output + block;
    }
  }

  /** `remove_kimi_hooks`: exactly the hook blocks that carry the marker go; their events are reported. */
  method RemoveHooks(content: string) returns (cleaned: string, removed: seq<string>)
    ensures cleaned == Join(Remove(Lines(content), Ours))
    ensures removed == RemovedEvents(Blocks(Lines(content)), Ours)
  {
    hide Scanned, AddLine, Ours;
    var lines := Lines(content);
    var output, block, inHook, event := [], [], false, None;
    removed := [];
    var i := 0;
    NothingScanned(Ours);
    while i < |lines|
      invariant 0 <= i <= |lines|
      invariant Scanned(Blocks(lines[..i]), Ours, inHook, output, block, event, removed)
    {
      var line := lines[i];
      var trimmed := Trim(line);
      ghost var bs := Blocks(lines[..i]);
      BlocksNext(lines, i);
      if trimmed == HOOKS_HEADER {
        output, removed := FlushBlock(output, block, inHook, removed, event, bs);
        OnHookHeader(bs, line, Ours);
        inHook, event, block := true, None, [line];
      } else if inHook && "[" <= trimmed {
        output, removed := FlushBlock(output, block, inHook, removed, event, bs);
        OnOtherHeader(bs, line, Ours, None);
        inHook, event, block := false, None, [];
        output := output + [line];
      } else if inHook {
        OnLineInside(bs, line, Ours, output, block, event, removed);
        if EVENT_KEY <= trimmed {
          event := EventOf(line);
        }
        block := block + [line];
      } else {
        OnLineOutside(bs, line, Ours, output, block, event, removed);
        output := output + [line];
      }
      i := i + 1;
    }
    assert lines[..i] == lines;
    output, removed := FlushBlock(output, block, inHook, removed, event, Blocks(lines));
    cleaned := Join(output);
  }

  /** `remove_kimi_legacy_blocks`: the same split, with its own inlined flush and predicate. */
  method RemoveLegacyBlocks(content: string) returns (cleaned: string, removed: seq<string>)
    ensures cleaned == Join(Remove(Lines(content), Legacy))
    ensures removed == RemovedEvents(Blocks(Lines(content)), Legacy)
  {
    hide Scanned, AddLine, Legacy;
    var lines := Lines(content);
    var output, block, inHook, event := [], [], false, None;
    removed := [];
    var i := 0;
    NothingScanned(Legacy);
    while i < |lines|
      invariant 0 <= i <= |lines|
      invariant Scanned(Blocks(lines[..i]), Legacy, inHook, output, block, event, removed)
    {
      var line := lines[i];
      var trimmed := Trim(line);
      ghost var bs := Blocks(lines[..i]);
      BlocksNext(lines, i);
      if trimmed == HOOKS_HEADER {
        OnFlush(bs, Legacy, inHook, output, block, event, removed);
        if inHook {
          if Legacy(block) {
            removed := removed + Listed(event);
          } else {
            output := output + block;
          }
        }
        OnHookHeader(bs, line, Legacy);
        inHook, event, block := true, None, [line];
      } else if inHook && "[" <= trimmed {
        OnFlush(bs, Legacy, inHook, output, block, event, removed);
        if inHook {
          if Legacy(block) {
            removed := removed + Listed(event);
          } else {
            output := output + block;
          }
        }
        OnOtherHeader(bs, line, Legacy, None);
        inHook, event, block := false, None, [];
        output := output + [line];
      } else if inHook {
        OnLineInside(bs, line, Legacy, output, block, event, removed);
        if EVENT_KEY <= trimmed {
          event := EventOf(line);
        }
        block := block + [line];
      } else {
        OnLineOutside(bs, line, Legacy, output, block, event, removed);
        output := output + [line];
      }
      i := i + 1;
    }
    assert lines[..i] == lines;
    OnFlush(Blocks(lines), Legacy, inHook, output, block, event, removed);
    if inHook {
      if Legacy(block) {
        removed := removed + Listed(event);
      } else {
        output := output + block;
      }
    }
    cleaned := Join(output);
  }

  lemma NothingScanned(p: Block -> bool)
    ensures Scanned(Blocks([]), p, false, [], [], None, [])
  {
  }
}
