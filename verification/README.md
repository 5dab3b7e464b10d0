# Debug-manifest rewriter, modelled in Dafny

This project models the spin.toml rewriter of the debug command
(`pkg/debug/update_spin_toml.go`). Given the lines of a Spin application
manifest and the name of one component, the rewriter produces the manifest's
"debug" variant:

- lines before the first section header are copied as they are;
- every later line belongs to a section, which is a header line plus the
  non-header lines after it;
- a trigger section (`[[trigger.<kind>]]`) that binds the named component becomes
  a three-line command trigger for it;
- in the section of the named component (`[component.<name>]`), every
  `source = ` line becomes a fixed source that points at the wasm-console
  module, pinned by its SHA-256 digest;
- every other section is copied unchanged.

Each printed piece of text is followed by a newline.

The model has five modules, one file each:

- `Text` (`text.dfy`): prefix tests, joining lines with `"\n"` (Go's
  `strings.Join`), writing each line followed by `"\n"` (one `fmt.Fprintln` per
  line), and flattening groups of lines.
- `Headers` (`headers.dfy`): the two anchored header patterns as string
  predicates. Each predicate comes with the constructor and the extractor of the
  header it recognises, and lemmas show that the predicate accepts exactly what
  the constructor builds.
- `Scanner` (`scanner.dfy`): cutting lines into sections, and what is printed
  (`Pieces`) for any section renderer. `Scan` is Go's
  accumulate-and-flush loop with the renderer as a parameter. It is proved to
  print exactly `Pieces`.
- `Rules` (`rules.dfy`): the tagged `Section` datatype, rule selection
  (`Classify`), and the component and trigger rules. Each rule is stated on lines
  (`ComponentLines`, `TriggerLines`) and as text (`ComponentConfigSection`,
  `ParseTriggerConfigSection`, `ParseSection`), where the text is the lines
  joined by newlines.
- `Rewriter` (`rewriter.dfy`): the scanner with the rules plugged in. `Update` is
  Go's `update` without the file handling. `Rewrite` is its result as
  text, and `RewriteLines` is the same result as lines. This module also holds
  the document-level properties and two worked scenarios.

Input is an already split sequence of lines, as `bufio.Scanner` produces it,
with each line a Dafny string of Unicode characters (see "## Left out"). Go's `\w` is the ASCII class `[0-9A-Za-z_]`. In the component pattern
`^\[component\..*\]$`, the dot does not match a newline, so the model requires
the text between `[component.` and `]` to be free of `'\n'`. Lines that the
scanner produces never contain one anyway.

## Model

| member | source | states |
|---|---|---|
| `Headers.IsTriggerHeader` | pkg/debug/update_spin_toml.go:12 | The anchored trigger pattern as a predicate on the line's characters: `[[trigger.`, then one or more ASCII word characters, then `]]`, and nothing else. Its characterisation is stated by `TriggerKind` and `TriggerHeaderOfIsHeader`. |
| `Headers.IsComponentHeader` | pkg/debug/update_spin_toml.go:13 | The anchored component pattern as a predicate: `[component.`, then any newline-free text (possibly empty), then `]`. Its characterisation is stated by `ComponentName` and `ComponentHeaderOfIsHeader`. |
| `Headers.TriggerKind` | pkg/debug/update_spin_toml.go:12 | A line that matches the trigger pattern names a non-empty ASCII word, and `[[trigger.` + that word + `]]` is the line itself. |
| `Headers.TriggerHeaderOfIsHeader` | pkg/debug/update_spin_toml.go:12 | Conversely, `[[trigger.` + any non-empty word + `]]` matches the trigger pattern, and it names that word. |
| `Headers.ComponentName` | pkg/debug/update_spin_toml.go:13 | A line that matches the component pattern is `[component.` + a newline-free name + `]`. The name may be empty. |
| `Headers.ComponentHeaderOfIsHeader` | pkg/debug/update_spin_toml.go:13 | Conversely, `[component.<name>]` matches the pattern for every newline-free name, and it names that name. |
| `Headers.HeadersDisjoint` | pkg/debug/update_spin_toml.go:12-13 | No line matches both header patterns. |
| `Headers.HeaderStartsWithBracket` | pkg/debug/update_spin_toml.go:12-13 | Every header line starts with `[`. |
| `Text.JoinLines` | pkg/debug/update_spin_toml.go:96 | Joining with `"\n"` separates the parts but does not follow the last one: the join of no parts is empty, and the join of one or more parts plus one newline is every part followed by a newline. |
| `Scanner.NextHeader` | pkg/debug/update_spin_toml.go:30-49 | The scanner leaves the preamble at the first header: no line before the returned index is a header, and the line at the index, if any, is a header. |
| `Scanner.Sections` | pkg/debug/update_spin_toml.go:30-45 | Cutting a run that starts at a header yields groups. Each group is a header followed by non-header lines only, and the groups, concatenated in order, are exactly the input lines. |
| `Scanner.SectionsOfFlatten` | pkg/debug/update_spin_toml.go:30-45 | The cut is unique: any sequence of such groups is the section list of its own concatenation. So each line belongs to exactly one section, and a section ends exactly at the next header. |
| `Scanner.SectionsAppend` | pkg/debug/update_spin_toml.go:30-42 | Cutting two header-led runs placed one after the other gives the sections of the first run, then those of the second. |
| `Scanner.Scan` | pkg/debug/update_spin_toml.go:24-58 | The accumulate-and-flush loop prints the preamble lines, then each section's text, once each and in input order, each followed by a newline. The last section is flushed at the end of input. |
| `Rewriter.Update` | pkg/debug/update_spin_toml.go:15-61 | `update` on the manifest's lines returns the preamble, then every section rewritten under the rule its header selects, each printed piece followed by a newline. |
| `Rewriter.RewriteIsTerminatedLines` | pkg/debug/update_spin_toml.go:33-58 | The returned text equals the rewritten lines, each followed by a newline. |
| `Rewriter.NoHeadersUnchanged` | pkg/debug/update_spin_toml.go:46-49 | A manifest without any header line comes back as every input line followed by a newline. |
| `Rewriter.PreambleCopied` | pkg/debug/update_spin_toml.go:46-49 | Every header-free opening run of lines appears verbatim at the start of the output, each line followed by a newline. |
| `Rewriter.AbsentComponentUnchanged` | pkg/debug/update_spin_toml.go:71-110 | If no line is `[component.<name>]` and no line is `component = "<name>"`, the output is the input, line for line. |
| `Rewriter.RewriteIdempotent` | pkg/debug/update_spin_toml.go:24-58 | Rewriting the lines of an already rewritten manifest with the same name gives the same lines. |
| `Rewriter.ScenarioRewritesWeb` | pkg/debug/update_spin_toml.go:24-58 | Take an HTTP trigger for `web` (with a route and a blank line) followed by `[component.web]` with a source. With name `web` it becomes `[[trigger.command]]`, `component = "web"`, a blank line, `[component.web]` and the debug source. |
| `Rewriter.ScenarioOtherUnchanged` | pkg/debug/update_spin_toml.go:24-58 | With the name `other`, the same manifest comes back line for line, and the returned text is the input byte for byte: every line followed by a newline. |
| `Rules.Classify` | pkg/debug/update_spin_toml.go:63-69 | A section takes the trigger rule exactly when its first line matches the trigger pattern. Otherwise it takes the component rule. For a header-led section, that means its first line is a component header. |
| `Rules.ComponentConfigSection` | pkg/debug/update_spin_toml.go:71-97 | Without a `[component.<name>]` line, the text is the section's lines joined by newlines, unchanged. With one, the text plus a newline is every line of the section, in order, each followed by a newline, where each `source = ` line is the debug source. |
| `Rules.ParseTriggerConfigSection` | pkg/debug/update_spin_toml.go:99-120 | Without a `component = "<name>"` line, the text is the section's lines joined by newlines, unchanged. With one, the text is exactly `[[trigger.command]]`, a newline, `component = "<name>"` and a newline, whatever the section held. |
| `Rules.ParseSection` | pkg/debug/update_spin_toml.go:63-69 | The four outcomes of the dispatch. A trigger-led section bound to the name gives the command-trigger text. A trigger-led section not bound to it is joined unchanged. Any other section that holds the component's header gets its sources replaced. Any other section without that header is joined unchanged. |
| `Rules.ParseSectionTerminated` | pkg/debug/update_spin_toml.go:63-69 | A section's text, followed by a newline, is its rewritten lines under the selected rule, each followed by a newline. |
| `Rules.ReplaceSources` | pkg/debug/update_spin_toml.go:86-94 | Same length and same order. Every line that starts with `source = ` becomes the fixed debug source line, and every other line is kept in its place. |
| `Rules.ComponentLines` | pkg/debug/update_spin_toml.go:71-97 | A section without a `[component.<name>]` line is returned unchanged. Otherwise it keeps its length and order, its `source = ` lines are replaced by the debug source, and its other lines are untouched. |
| `Rules.TriggerLines` | pkg/debug/update_spin_toml.go:99-120 | A section without a `component = "<name>"` line is returned unchanged, whatever its kind. Otherwise the result is exactly three lines: a trigger header of kind `command`, `component = "<name>"`, and an empty line. |
| `Rules.ComponentHeaderOnlyFirst` | pkg/debug/update_spin_toml.go:74-78 | In a section as the scanner forms it (its lines hold no newline), only the first line can equal `[component.<name>]`, for every name. So the component rule fires exactly when the section's own header is that line. |
| `Rules.ComponentSectionSelectedByHeader` | pkg/debug/update_spin_toml.go:71-82 | For every requested name, a scanned component section is rewritten exactly when its header names that component, and otherwise comes back unchanged. In particular, `[component.web.build]` does not select `web`. |
| `Rules.TriggerRewriteForgetsOriginal` | pkg/debug/update_spin_toml.go:112-119 | Two trigger sections that both bind the named component rewrite to the same lines, whatever their kinds, routes and absorbed lines. |
| `Rules.SourceRuleIdempotent` | pkg/debug/update_spin_toml.go:88-90 | The debug source line itself starts with `source = `, so replacing sources a second time changes nothing. |
| `Rules.TriggerRewriteStable` | pkg/debug/update_spin_toml.go:114-119 | A rewritten trigger section is again a well-formed trigger section, and the trigger rule keeps it as it is. |
| `Rules.ComponentRewriteStable` | pkg/debug/update_spin_toml.go:86-96 | A rewritten component section keeps its header and is still well formed, and the component rule keeps it as it is. |
| `Rules.SectionRewriteStable` | pkg/debug/update_spin_toml.go:63-69 | A rewritten section is well formed, takes the same rule again, and is a fixed point of that rule. |

## Left out

- Opening the manifest file and its error path (`pkg/debug/update_spin_toml.go:16-19`): file I/O. The model takes the manifest as a sequence of lines.
- `bufio.Scanner` (`pkg/debug/update_spin_toml.go:22-25`): splitting at newlines, stripping a trailing `\r`, the 64 KiB token limit and the unchecked `scanner.Err()` are library I/O behaviour. A line longer than the limit would end the scan early and silently, which is not modelled.
- Rewriter.RewriteIdempotent: stated on the output lines, not on the returned text. Reading the text back with Go's line scanner gives the same lines only when no output line contains `'\n'` and none ends in `'\r'`, since the scanner drops one trailing `'\r'` from each line it reads. Splitting text into lines is not modelled.
- Lines as bytes: Go's scanner yields byte strings, and the two patterns decode them as UTF-8, so an invalid byte (read as U+FFFD) can still match `.` in the component pattern. Dafny strings are sequences of Unicode scalar values, so a line such as `[component.` + byte 0xFF + `]` cannot be written here. The model covers manifests whose lines decode as UTF-8, which TOML requires. On such lines, both patterns, string equality and `strings.HasPrefix` agree with Go character for character.
- `Scanner.Scan` takes the section renderer as a parameter. `Rewriter.Update` passes Go's `parseSection` for the component name. A renderer given an empty section yields `""`, but the scanner never flushes an empty section.
- `pkg/debug/oci.go`: pulling, building, writing and pushing OCI images, plus the time-based tag, are network and archive I/O.
- `pkg/debug/debug.go` `DoIt`: temporary-directory plumbing around pull, rewrite and push.
- `pkg/cmd/debug.go`: Kubernetes calls, a timer race, and the attach session.
- The doctor subsystem (`pkg/doctor`, `pkg/cmd/doctor.go`): cluster API calls and printing.
- `pkg/debug/debug_test.go`: network-bound tests of `DoIt`; they do not constrain the rewriter.
