/**
 The manifest rewriter: the scanner of module Scanner with the section rules of
 module Rules plugged in, for one component name.

 `Rewrite` is the text Go's `update` in pkg/debug/update_spin_toml.go returns
 for the manifest's lines; `Update` is its loop. `RewriteLines` is the same output as a sequence of lines,
 used to state idempotence.
 */
module Rewriter {
  import opened Text
  import opened Headers
  import opened Scanner
  import opened Rules

  /** A section's text under the rule its first line selects. */
  function SectionText(name: string): seq<string> -> string {
    group => if |group| == 0 then "" else ParseSection(group, name)
  }

  /** A section's rewritten lines under the rule its first line selects. */
  function SectionRewrite(name: string): seq<string> -> seq<string> {
    group => if |group| == 0 then [] else SectionLines(group, name)
  }

  /** The debug variant of a manifest, as text. */
  function Rewrite(lines: seq<string>, name: string): string {
    Terminated(Pieces(lines, SectionText(name)))
  }

  /** The debug variant of a manifest, as lines. */
  function RewriteLines(lines: seq<string>, name: string): seq<string> {
    OutputLines(lines, SectionRewrite(name))
  }

  /** Go's `update` on the manifest's lines: the scanning loop with each
      section parsed for the named component. */
  method Update(lines: seq<string>, name: string) returns (out: string)
    ensures out == Rewrite(lines, name)
  {
    out := Scan(lines, SectionText(name));
  }

  /** Section by section, the text and the lines agree. */
  lemma SectionTextIsLines(name: string)
    ensures forall g :: WellFormed(g) ==>
      SectionText(name)(g) + "\n" == Terminated(SectionRewrite(name)(g))
  {
    forall g | WellFormed(g)
      ensures SectionText(name)(g) + "\n" == Terminated(SectionRewrite(name)(g))
    {
      ParseSectionTerminated(g, name);
    }
  }

  /** The rewritten text is the rewritten lines, each followed by a newline. */
  lemma RewriteIsTerminatedLines(lines: seq<string>, name: string)
    ensures Rewrite(lines, name) == Terminated(RewriteLines(lines, name))
  {
    SectionTextIsLines(name);
    PiecesAreLines(lines, SectionText(name), SectionRewrite(name));
  }

  /** A manifest without a header line is written out unchanged: every line,
      followed by a newline. */
  lemma NoHeadersUnchanged(lines: seq<string>, name: string)
    requires forall line :: line in lines ==> !IsHeader(line)
    ensures RewriteLines(lines, name) == lines
    ensures Rewrite(lines, name) == Terminated(lines)
  {
    NoHeadersKept(lines, SectionText(name), SectionRewrite(name));
  }

  /** Any header-free opening run of lines is copied to the front of the output,
      each line followed by a newline. */
  lemma PreambleCopied(lines: seq<string>, name: string, k: nat)
    requires k <= |lines|
    requires forall line :: line in lines[..k] ==> !IsHeader(line)
    ensures StartsWith(Rewrite(lines, name), Terminated(lines[..k]))
  {
    PreambleKept(lines, SectionText(name), k);
  }

  /** If no line is the named component's header and no line binds a trigger to it,
      the manifest comes back unchanged. */
  lemma AbsentComponentUnchanged(lines: seq<string>, name: string)
    requires ComponentHeaderOf(name) !in lines
    requires ComponentAssignment(name) !in lines
    ensures RewriteLines(lines, name) == lines
    ensures Rewrite(lines, name) == Terminated(lines)
  {
    var p := NextHeader(lines);
    forall g | g in Sections(lines[p..])
      ensures SectionRewrite(name)(g) == g
    {
      forall x | x in g
        ensures x in lines
      {
        SectionLinesFromRun(lines[p..], g, x);
      }
    }
    FixedSectionsKept(lines, SectionRewrite(name));
    RewriteIsTerminatedLines(lines, name);
  }

  /** Rewriting is idempotent on lines: rewriting the lines of an already rewritten
      manifest with the same component name gives the same lines again. */
  lemma RewriteIdempotent(lines: seq<string>, name: string)
    ensures RewriteLines(RewriteLines(lines, name), name) == RewriteLines(lines, name)
  {
    forall g | WellFormed(g)
      ensures WellFormed(SectionRewrite(name)(g))
      ensures SectionRewrite(name)(SectionRewrite(name)(g)) == SectionRewrite(name)(g)
    {
      SectionRewriteStable(g, name);
    }
    OutputIdempotent(lines, SectionRewrite(name));
  }

  /** A small manifest: an HTTP trigger bound to `web` (with a route and a blank
      line), then the `web` component with its own source. */
  const Example: seq<string> :=
    ["[[trigger.http]]", "component = \"web\"", "route = \"/\"", "",
     "[component.web]", "source = \"web.wasm\""]

  /** The example cut into its two sections. */
  lemma ExampleSections()
    ensures NextHeader(Example) == 0
    ensures Sections(Example) == [Example[..4], Example[4..]]
  {
    var t := Example[..4];
    var c := Example[4..];
    assert IsTriggerHeader(Example[0]) by {
      assert IsWord("http");
      TriggerHeaderOfIsHeader("http");
      assert TriggerHeaderOf("http") == Example[0];
    }
    ComponentHeaderOfIsHeader("web");
    assert ComponentHeaderOf("web") == Example[4];
    forall line | line in t[1..] + c[1..]
      ensures !IsHeader(line)
    {
      if IsHeader(line) {
        HeaderStartsWithBracket(line);
      }
    }
    FlattenAppend([t], [c]);
    FlattenOne(t);
    FlattenOne(c);
    assert [t] + [c] == [t, c];
    assert Example == t + c;
    SectionsOfFlatten([t, c]);
  }

  /** The example's trigger section, bound to `web`, becomes a command trigger:
      its route and the blank line it absorbed are dropped. */
  lemma ExampleTriggerRewritten()
    ensures SectionLines(Example[..4], "web")
         == ["[[trigger.command]]", "component = \"web\"", ""]
  {
    TriggerHeaderOfIsHeader("http");
    assert TriggerHeaderOf("http") == Example[0];
    assert Example[..4][1] == ComponentAssignment("web");
    assert CommandTriggerHeader == "[[trigger.command]]";
  }

  /** The example's `web` component gets the debug source. */
  lemma ExampleComponentRewritten()
    ensures SectionLines(Example[4..], "web") == ["[component.web]", DebugSource]
  {
    var c := Example[4..];
    assert c[0][1] == 'c';
    assert c[0] == ComponentHeaderOf("web");
    assert c[1][..|SourcePrefix|] == SourcePrefix;
  }

  /** Three elements followed by two. */
  lemma ThreeThenTwo<T>(a: T, b: T, c: T, d: T, e: T)
    ensures [a, b, c] + [d, e] == [a, b, c, d, e]
  {
  }

  /** With the name `web`, the HTTP trigger becomes a command trigger and the
      component gets the debug source; nothing else changes. */
  lemma ScenarioRewritesWeb()
    ensures RewriteLines(Example, "web")
         == ["[[trigger.command]]", "component = \"web\"", "",
             "[component.web]", DebugSource]
  {
    ExampleSections();
    ExampleTriggerRewritten();
    ExampleComponentRewritten();
    TwoSectionsOut(Example, Example[..4], Example[4..], SectionRewrite("web"));
    ThreeThenTwo("[[trigger.command]]", "component = \"web\"", "", "[component.web]", DebugSource);
  }

  /** With a name the manifest does not mention, it comes back line for line. */
  lemma ScenarioOtherUnchanged()
    ensures RewriteLines(Example, "other") == Example
    ensures Rewrite(Example, "other") == Terminated(Example)
  {
    var h := ComponentHeaderOf("other");
    var a := ComponentAssignment("other");
    assert |h| == 17 && h[0] == '[';
    assert |a| == 19 && a[0] == 'c';
    assert Example[1][0] == 'c' && Example[5][0] == 's';
    AbsentComponentUnchanged(Example, "other");
  }
}
