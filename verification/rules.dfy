/**
 The per-section rewrite rules of the manifest rewriter.

 A section is a header line followed by the non-header lines up to the next
 header. Its first line decides the rule: a trigger header selects the trigger
 rule, anything else the component rule (`Classify`). The rules are stated on
 lines (`TriggerLines`, `ComponentLines`); the string-valued functions named
 after Go's functions in pkg/debug/update_spin_toml.go join those lines with
 newlines.
 */
module Rules {
  import opened Text
  import opened Headers
  import opened Scanner

  /** The prefix that marks a component's source declaration. */
  const SourcePrefix: string := "source = "

  /** The value of the debug console component's source: a fixed download URL
      pinned by its SHA-256 digest. */
  const DebugSourceValue: string :=
    "{ url = \"https://github.com/rajatjindal/wasm-console/raw/main/main.wasm\", digest = \"sha256:ca1ab307ae38892efdc81379c93b1e29e6b1565ea706e874576d72b8f2598439\" }"

  /** The fixed source declaration that replaces a matching component's source. */
  const DebugSource: string :=
    SourcePrefix + DebugSourceValue

  /** The trigger kind every matching trigger section is forced to. */
  const CommandKind: string := "command"

  /** The header of the command trigger, `[[trigger.command]]`. */
  const CommandTriggerHeader: string := TriggerHeaderOf(CommandKind)

  /** The assignment that binds a trigger to the named component. */
  function ComponentAssignment(name: string): string {
    "component = \"" + name + "\""
  }

  /** A section's lines, tagged with the rule that applies to them. */
  datatype Section = Trigger(lines: seq<string>) | Component(lines: seq<string>)

  /** Rule selection: the trigger rule exactly when the first line is a trigger
      header; for a section that starts with a header, the component rule only when
      that header is a component header. */
  function Classify(lines: seq<string>): (s: Section)
    requires |lines| > 0
    ensures s.lines == lines
    ensures s.Trigger? <==> IsTriggerHeader(lines[0])
    ensures s.Component? && IsHeader(lines[0]) ==> IsComponentHeader(lines[0])
  {
    if IsTriggerHeader(lines[0]) then Trigger(lines) else Component(lines)
  }

  /** Each line that declares a source becomes the debug source; every other line
      stays as it is, in place. */
  function ReplaceSources(lines: seq<string>): (r: seq<string>)
    ensures |r| == |lines|
    ensures forall i :: 0 <= i < |lines| && StartsWith(lines[i], SourcePrefix) ==> r[i] == DebugSource
    ensures forall i :: 0 <= i < |lines| && !StartsWith(lines[i], SourcePrefix) ==> r[i] == lines[i]
  {
    if |lines| == 0 then []
    else
      var first := if StartsWith(lines[0], SourcePrefix) then DebugSource else lines[0];
      [first] + ReplaceSources(lines[1..])
  }

  /** The component rule. A section holding the named component's header line gets
      its source declarations replaced and keeps every other line in order; any
      other section is returned unchanged. */
  function ComponentLines(lines: seq<string>, name: string): (r: seq<string>)
    ensures ComponentHeaderOf(name) !in lines ==> r == lines
    ensures ComponentHeaderOf(name) in lines ==>
      && |r| == |lines|
      && (forall i :: 0 <= i < |lines| && StartsWith(lines[i], SourcePrefix) ==> r[i] == DebugSource)
      && (forall i :: 0 <= i < |lines| && !StartsWith(lines[i], SourcePrefix) ==> r[i] == lines[i])
  {
    if ComponentHeaderOf(name) in lines then ReplaceSources(lines) else lines
  }

  /** The trigger rule. A section holding the named component's assignment becomes
      the three lines of a command trigger for that component, whatever its original
      kind and other lines; any other section is returned unchanged. */
  function TriggerLines(lines: seq<string>, name: string): (r: seq<string>)
    ensures ComponentAssignment(name) !in lines ==> r == lines
    ensures ComponentAssignment(name) in lines ==>
      && |r| == 3
      && IsTriggerHeader(r[0]) && TriggerKind(r[0]) == CommandKind
      && r[1] == ComponentAssignment(name)
      && r[2] == ""
  {
    TriggerHeaderOfIsHeader(CommandKind);
    if ComponentAssignment(name) in lines then [CommandTriggerHeader, ComponentAssignment(name), ""]
    else lines
  }

  /** The rewrite of a tagged section, as lines. */
  function RewriteSection(s: Section, name: string): seq<string> {
    match s
    case Trigger(lines) => TriggerLines(lines, name)
    case Component(lines) => ComponentLines(lines, name)
  }

  /** The rewrite of a group of lines under the rule its first line selects. */
  function SectionLines(lines: seq<string>, name: string): (r: seq<string>)
    requires |lines| > 0
    ensures |r| > 0
  {
    RewriteSection(Classify(lines), name)
  }

  /** The trigger rule's output for a bound section, as text. */
  function CommandTriggerText(name: string): string {
    "[[trigger.command]]\ncomponent = \"" + name + "\"\n"
  }

  /** The component rule as text: a section without the named component's header
      comes back joined as it is; the selected section comes back with its sources
      replaced, one line per input line. */
  function ComponentConfigSection(lines: seq<string>, name: string): (r: string)
    ensures ComponentHeaderOf(name) !in lines ==> r == JoinLines(lines)
    ensures ComponentHeaderOf(name) in lines ==> r + "\n" == Terminated(ReplaceSources(lines))
  {
    JoinLines(ComponentLines(lines, name))
  }

  /** The trigger rule as text: a bound section becomes the command trigger for
      the component, ending in the empty line; any other section comes back joined
      as it is. */
  function ParseTriggerConfigSection(lines: seq<string>, name: string): (r: string)
    ensures ComponentAssignment(name) !in lines ==> r == JoinLines(lines)
    ensures ComponentAssignment(name) in lines ==> r == CommandTriggerText(name)
  {
    var r := JoinLines(TriggerLines(lines, name));
    assert ComponentAssignment(name) in lines ==> r == CommandTriggerText(name) by {
      if ComponentAssignment(name) in lines {
        JoinThree(CommandTriggerHeader, ComponentAssignment(name), "");
        assert CommandTriggerHeader == "[[trigger.command]]";
      }
    }
    r
  }

  /** One section's text, dispatched on its first line: a trigger section under the
      trigger rule, any other section under the component rule. */
  function ParseSection(lines: seq<string>, name: string): (r: string)
    requires |lines| > 0
    ensures IsTriggerHeader(lines[0]) && ComponentAssignment(name) in lines ==> r == CommandTriggerText(name)
    ensures IsTriggerHeader(lines[0]) && ComponentAssignment(name) !in lines ==> r == JoinLines(lines)
    ensures !IsTriggerHeader(lines[0]) && ComponentHeaderOf(name) in lines ==>
      r + "\n" == Terminated(ReplaceSources(lines))
    ensures !IsTriggerHeader(lines[0]) && ComponentHeaderOf(name) !in lines ==> r == JoinLines(lines)
  {
    match Classify(lines)
    case Trigger(ls) => ParseTriggerConfigSection(ls, name)
    case Component(ls) => ComponentConfigSection(ls, name)
  }

  /** A section's text followed by one newline, as the scanner writes it, is the
      section's rewritten lines each followed by a newline. */
  lemma ParseSectionTerminated(lines: seq<string>, name: string)
    requires |lines| > 0
    ensures ParseSection(lines, name) + "\n" == Terminated(SectionLines(lines, name))
  {
  }

  /** Rewriting a source line twice is rewriting it once: the debug source itself
      declares a source and is mapped to itself. */
  lemma SourceRuleIdempotent(line: string)
    ensures var once := if StartsWith(line, SourcePrefix) then DebugSource else line;
            (if StartsWith(once, SourcePrefix) then DebugSource else once) == once
  {
    assert DebugSource[..|SourcePrefix|] == SourcePrefix;
  }

  /** A header line never declares a source, so the source replacement keeps it. */
  lemma HeaderIsNotSource(line: string)
    requires IsHeader(line)
    ensures !StartsWith(line, SourcePrefix)
  {
    HeaderStartsWithBracket(line);
    assert |SourcePrefix| <= |line| ==> line[..|SourcePrefix|][0] == line[0] != SourcePrefix[0];
  }

  /** A name with a newline gives a header with a newline, which no scanned line
      can equal. */
  lemma NewlineNameHeader(name: string)
    requires '\n' in name
    ensures '\n' in ComponentHeaderOf(name)
  {
    var i :| 0 <= i < |name| && name[i] == '\n';
    assert ComponentHeaderOf(name)[|ComponentPrefix| + i] == name[i];
  }

  /** Within a section the scanner formed, only the first line can be the named
      component's header, since any later copy of it would have opened a section of
      its own. Hence the component rule fires exactly when the section's own header
      names the component: `[component.web.build]` does not select `web`. Scanned
      lines never hold a newline; the name may be any string. */
  lemma ComponentHeaderOnlyFirst(group: seq<string>, name: string)
    requires WellFormed(group)
    requires forall line :: line in group ==> '\n' !in line
    ensures forall j :: 0 < j < |group| ==> group[j] != ComponentHeaderOf(name)
    ensures ComponentHeaderOf(name) in group <==> group[0] == ComponentHeaderOf(name)
  {
    if '\n' in name {
      NewlineNameHeader(name);
    } else {
      ComponentHeaderOfIsHeader(name);
      forall j | 0 < j < |group|
        ensures group[j] != ComponentHeaderOf(name)
      {
        assert group[j] == group[1..][j - 1];
        assert group[j] in group[1..];
      }
    }
  }

  /** A component section is rewritten exactly when its header is the named
      component's header; otherwise it comes back unchanged. */
  lemma ComponentSectionSelectedByHeader(group: seq<string>, name: string)
    requires WellFormed(group) && !IsTriggerHeader(group[0])
    requires forall line :: line in group ==> '\n' !in line
    ensures IsComponentHeader(group[0])
    ensures ComponentName(group[0]) == name ==> SectionLines(group, name) == ReplaceSources(group)
    ensures ComponentName(group[0]) != name ==> SectionLines(group, name) == group
  {
    ComponentHeaderOnlyFirst(group, name);
    if '\n' !in name {
      ComponentHeaderOfIsHeader(name);
    }
  }

  /** The trigger rule ignores the original trigger kind and every other line: two
      trigger sections that both bind the named component rewrite to the same
      lines. */
  lemma TriggerRewriteForgetsOriginal(a: seq<string>, b: seq<string>, name: string)
    requires |a| > 0 && |b| > 0
    requires IsTriggerHeader(a[0]) && IsTriggerHeader(b[0])
    requires ComponentAssignment(name) in a && ComponentAssignment(name) in b
    ensures SectionLines(a, name) == SectionLines(b, name)
  {
  }

  /** The trigger rule maps a trigger section to a trigger section that it keeps. */
  lemma TriggerRewriteStable(group: seq<string>, name: string)
    requires WellFormed(group) && IsTriggerHeader(group[0])
    ensures WellFormed(TriggerLines(group, name))
    ensures IsTriggerHeader(TriggerLines(group, name)[0])
    ensures TriggerLines(TriggerLines(group, name), name) == TriggerLines(group, name)
  {
    if ComponentAssignment(name) in group {
      var r := TriggerLines(group, name);
      var assign := ComponentAssignment(name);
      assert assign[0] == 'c';
      if IsHeader(assign) {
        HeaderStartsWithBracket(assign);
      }
      assert r[1] == assign;
      assert r[1] in r;
    }
  }

  /** The component rule maps a component section to a component section with the
      same header, and it keeps its own result. */
  lemma ComponentRewriteStable(group: seq<string>, name: string)
    requires WellFormed(group) && !IsTriggerHeader(group[0])
    ensures WellFormed(ComponentLines(group, name))
    ensures ComponentLines(group, name)[0] == group[0]
    ensures ComponentLines(ComponentLines(group, name), name) == ComponentLines(group, name)
  {
    if ComponentHeaderOf(name) in group {
      var r := ReplaceSources(group);
      HeaderIsNotSource(group[0]);
      assert r[0] == group[0];
      forall j | 0 < j < |r|
        ensures !IsHeader(r[j])
      {
        if StartsWith(group[j], SourcePrefix) {
          assert r[j] == DebugSource;
          assert DebugSource[0] == 's';
          if IsHeader(DebugSource) {
            HeaderStartsWithBracket(DebugSource);
          }
        } else {
          assert group[j] == group[1..][j - 1];
          assert group[j] in group[1..];
        }
      }
      var k :| 0 <= k < |group| && group[k] == ComponentHeaderOf(name);
      assert ComponentHeaderOf(name)[0] == '[' != SourcePrefix[0];
      assert !StartsWith(group[k], SourcePrefix);
      assert r[k] == group[k];
      forall j | 0 <= j < |r|
        ensures ReplaceSources(r)[j] == r[j]
      {
        SourceRuleIdempotent(group[j]);
      }
    }
  }

  /** A rewritten section is again a well-formed section under the same rule, and
      rewriting it once more changes nothing. */
  lemma SectionRewriteStable(group: seq<string>, name: string)
    requires WellFormed(group)
    ensures WellFormed(SectionLines(group, name))
    ensures Classify(SectionLines(group, name)).Trigger? == IsTriggerHeader(group[0])
    ensures SectionLines(SectionLines(group, name), name) == SectionLines(group, name)
  {
    if IsTriggerHeader(group[0]) {
      TriggerRewriteStable(group, name);
    } else {
      ComponentRewriteStable(group, name);
    }
  }
}
