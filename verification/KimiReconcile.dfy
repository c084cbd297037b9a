/** Adding and removing this program's hooks in the Kimi file (crates/core/src/hook_status.rs). */
module KimiReconcile {
  import opened Text
  import opened KimiBlocks
  import opened KimiHooks
  import opened KimiHookBlock
  import opened KimiAppend

  // ---- reconcile_kimi_add ----

  /** Lines other than `hooks = []`. */
  function Strip(ls: seq<string>): seq<string> {
    if ls == [] then []
    else (if Trim(ls[0]) == EMPTY_HOOKS then [] else [ls[0]]) + Strip(ls[1..])
  }

  function Stripped(content: string): string {
    Join(Strip(Lines(content)))
  }

  /** What is left to add hooks to. */
  function BaseText(content: string): string {
    Join(Remove(Lines(Stripped(content)), Legacy))
  }

  function LegacyEvents(content: string): seq<string> {
    RemovedEvents(Blocks(Lines(content)), Legacy)
  }

  function AddedText(content: string, events: seq<string>, hook: string): string {
    if events == [] then content
    else
      var before := AddedText(content, events[..|events| - 1], hook);
      var event := events[|events| - 1];
      if HasCurrentHook(before, event) then before else WithBlock(before, HookBlock(event, hook))
  }

  function AddedEvents(content: string, events: seq<string>, hook: string): seq<string> {
    if events == [] then []
    else
      var before := events[..|events| - 1];
      var event := events[|events| - 1];
      AddedEvents(content, before, hook)
      + (if HasCurrentHook(AddedText(content, before, hook), event) then [] else [event])
  }

  datatype Report = Report(added: seq<string>, removed: seq<string>)

  function AddReport(content: string, events: seq<string>, hook: string): Report {
    Report(AddedEvents(BaseText(content), events, hook), LegacyEvents(Stripped(content)))
  }

  function AfterAdd(content: string, events: seq<string>, hook: string): string {
    if AddReport(content, events, hook) == Report([], []) then content
    else AddedText(BaseText(content), events, hook)
  }

  // ---- reconcile_kimi_remove ----

  function Union(r: seq<string>, es: seq<string>): seq<string> {
    if es == [] then r
    else
      var u := Union(r, es[..|es| - 1]);
      var e := es[|es| - 1];
      if e in u then u else u + [e]
  }

  function WithoutOurs(content: string): string {
    Join(Remove(Lines(content), Ours))
  }

  function RemoveReport(content: string): Report {
    Report([], Union(RemovedEvents(Blocks(Lines(content)), Ours), LegacyEvents(WithoutOurs(content))))
  }

  function Cleaned(content: string): string {
    Join(Remove(Lines(WithoutOurs(content)), Legacy))
  }

  function AfterRemove(content: string): string {
    if RemoveReport(content).removed == [] then content else Cleaned(content)
  }

  /** The Kimi configuration file. A file that does not exist reads as empty text. */
  class KimiFile {
    var onDisk: bool
    var text: string

    predicate Valid() reads this {
      !onDisk ==> text == ""
    }

    method ReconcileAdd(hook: string, enabled: seq<string>) returns (report: Report)
      requires Valid()
      modifies this
      ensures Valid()
      ensures report == AddReport(old(text), enabled, hook)
      ensures text == AfterAdd(old(text), enabled, hook)
      ensures onDisk == (old(onDisk) || report != Report([], []))
    {
      var content := Join(Strip(Lines(text)));
      var cleaned, legacy := RemoveLegacyBlocks(content);
      content := cleaned;
      var added := [];
      var i := 0;
      while i < |enabled|
        invariant 0 <= i <= |enabled|
        invariant content == AddedText(BaseText(text), enabled[..i], hook)
        invariant added == AddedEvents(BaseText(text), enabled[..i], hook)
        invariant text == old(text) && onDisk == old(onDisk)
      {
        var event := enabled[i];
        assert enabled[..i + 1][..i] == enabled[..i];
        var found := EventHasCurrentHook(content, event);
        if !found {
          content := WithBlock(content, HookBlock(event, hook));
          added := added + [event];
        }
        i := i + 1;
      }
      assert enabled[..i] == enabled;
      if legacy != [] || added != [] {
        text, onDisk := content, true;
      }
      report := Report(added, legacy);
    }

    method ReconcileRemove() returns (report: Report)
      requires Valid()
      modifies this
      ensures Valid() && onDisk == old(onDisk)
      ensures report == (if old(onDisk) then RemoveReport(old(text)) else Report([], []))
      ensures text == if old(onDisk) then AfterRemove(old(text)) else ""
    {
      if !onDisk {
        return Report([], []);
      }
      var cleaned, removed := RemoveHooks(text);
      var cleaned2, legacy := RemoveLegacyBlocks(cleaned);
      ghost var ours := removed;
      var i := 0;
      while i < |legacy|
        invariant 0 <= i <= |legacy|
        invariant removed == Union(ours, legacy[..i])
      {
        assert legacy[..i + 1][..i] == legacy[..i];
        if legacy[i] !in removed {
          removed := removed + [legacy[i]];
        }
        i := i + 1;
      }
      assert legacy[..i] == legacy;
      if removed != [] {
        text := cleaned2;
      }
      report := Report([], removed);
    }
  }
}
