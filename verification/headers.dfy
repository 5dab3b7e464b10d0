/**
 The two section-header recognisers of the manifest rewriter. Both patterns are
 anchored at the start and the end of the line, so they are written here as plain
 predicates on the line's characters.

 - A trigger header is `[[trigger.`, then one or more ASCII word characters
   (digits, letters, underscore), then `]]`, and nothing else.
 - A component header starts with `[component.` and ends with `]`; whatever lies in
   between (possibly nothing) may be any characters except a newline, since the
   pattern's dot does not match a newline.

 Each recogniser is paired with a constructor (`TriggerHeaderOf`,
 `ComponentHeaderOf`) and an extractor, and the lemmas show that the recogniser
 accepts exactly the constructor's image.
 */
module Headers {

  const TriggerPrefix: string := "[[trigger."
  const TriggerSuffix: string := "]]"
  const ComponentPrefix: string := "[component."
  const ComponentSuffix: string := "]"

  /** An ASCII word character: what the pattern class for word characters accepts. */
  predicate IsWordChar(c: char) {
    ('0' <= c <= '9') || ('A' <= c <= 'Z') || ('a' <= c <= 'z') || c == '_'
  }

  /** One or more word characters. */
  predicate IsWord(s: string) {
    |s| > 0 && forall i :: 0 <= i < |s| ==> IsWordChar(s[i])
  }

  /** The trigger-header pattern. */
  predicate IsTriggerHeader(line: string) {
    && |line| > |TriggerPrefix| + |TriggerSuffix|
    && line[..|TriggerPrefix|] == TriggerPrefix
    && line[|line| - |TriggerSuffix|..] == TriggerSuffix
    && IsWord(line[|TriggerPrefix|..|line| - |TriggerSuffix|])
  }

  /** The component-header pattern. */
  predicate IsComponentHeader(line: string) {
    && |line| >= |ComponentPrefix| + |ComponentSuffix|
    && line[..|ComponentPrefix|] == ComponentPrefix
    && line[|line| - |ComponentSuffix|..] == ComponentSuffix
    && '\n' !in line[|ComponentPrefix|..|line| - |ComponentSuffix|]
  }

  /** A line that opens a section: either kind of header. */
  predicate IsHeader(line: string) {
    IsTriggerHeader(line) || IsComponentHeader(line)
  }

  /** The header line of a trigger of the given kind, e.g. `[[trigger.http]]`. */
  function TriggerHeaderOf(kind: string): string {
    TriggerPrefix + kind + TriggerSuffix
  }

  /** The header line of the named component, e.g. `[component.web]`. */
  function ComponentHeaderOf(name: string): string {
    ComponentPrefix + name + ComponentSuffix
  }

  /** The trigger kind a trigger header names; rebuilding the header from it gives
      the line back. */
  function TriggerKind(line: string): (kind: string)
    requires IsTriggerHeader(line)
    ensures IsWord(kind)
    ensures TriggerHeaderOf(kind) == line
  {
    var kind := line[|TriggerPrefix|..|line| - |TriggerSuffix|];
    assert line == line[..|TriggerPrefix|] + kind + line[|line| - |TriggerSuffix|..];
    kind
  }

  /** The component name a component header names; rebuilding the header from it
      gives the line back. */
  function ComponentName(line: string): (name: string)
    requires IsComponentHeader(line)
    ensures '\n' !in name
    ensures ComponentHeaderOf(name) == line
  {
    var name := line[|ComponentPrefix|..|line| - |ComponentSuffix|];
    assert line == line[..|ComponentPrefix|] + name + line[|line| - |ComponentSuffix|..];
    name
  }

  /** Every word makes a trigger header, and the header names that word. */
  lemma TriggerHeaderOfIsHeader(kind: string)
    requires IsWord(kind)
    ensures IsTriggerHeader(TriggerHeaderOf(kind))
    ensures TriggerKind(TriggerHeaderOf(kind)) == kind
  {
    var line := TriggerHeaderOf(kind);
    assert line[..|TriggerPrefix|] == TriggerPrefix;
    assert line[|line| - |TriggerSuffix|..] == TriggerSuffix;
    assert line[|TriggerPrefix|..|line| - |TriggerSuffix|] == kind;
  }

  /** Every newline-free name makes a component header, and the header names it. */
  lemma ComponentHeaderOfIsHeader(name: string)
    requires '\n' !in name
    ensures IsComponentHeader(ComponentHeaderOf(name))
    ensures ComponentName(ComponentHeaderOf(name)) == name
  {
    var line := ComponentHeaderOf(name);
    assert line[..|ComponentPrefix|] == ComponentPrefix;
    assert line[|line| - |ComponentSuffix|..] == ComponentSuffix;
    assert line[|ComponentPrefix|..|line| - |ComponentSuffix|] == name;
  }

  /** The two header kinds never overlap: a trigger header starts with `[[`, a
      component header with `[c`. */
  lemma HeadersDisjoint(line: string)
    ensures !(IsTriggerHeader(line) && IsComponentHeader(line))
  {
    if IsTriggerHeader(line) {
      assert line[1] == line[..|TriggerPrefix|][1] == '[';
    }
    if IsComponentHeader(line) {
      assert line[1] == line[..|ComponentPrefix|][1] == 'c';
    }
  }

  /** A line is a header only if it starts with `[`. */
  lemma HeaderStartsWithBracket(line: string)
    requires IsHeader(line)
    ensures |line| > 0 && line[0] == '['
  {
    if IsTriggerHeader(line) {
      assert line[0] == line[..|TriggerPrefix|][0];
    } else {
      assert line[0] == line[..|ComponentPrefix|][0];
    }
  }
}
