/**
 The line scanner of the manifest rewriter, independent of what is done to a
 section.

 Lines before the first header are written out as they are. From the first
 header on, every line belongs to a section: a header and the non-header lines
 after it, up to the next header or the end of input. Each section is written as
 its rendered text. Every written piece of text is followed by a newline, one
 `fmt.Fprintln` each.

 `Pieces` is the declarative definition of what is printed; `Scan` is the
 accumulate-and-flush loop of Go's `update`, proved to print it. `OutputLines` is
 the same output as a sequence of lines, for a section rewrite that yields lines.
 */
module Scanner {
  import opened Text
  import opened Headers

  /** The index of the first header line, or the number of lines if there is none. */
  function NextHeader(lines: seq<string>): (k: nat)
    ensures k <= |lines|
    ensures forall line :: line in lines[..k] ==> !IsHeader(line)
    ensures k < |lines| ==> IsHeader(lines[k])
  {
    if |lines| == 0 || IsHeader(lines[0]) then 0 else 1 + NextHeader(lines[1..])
  }

  /** The first header is the one after a header-free run. */
  lemma NextHeaderIs(lines: seq<string>, k: nat)
    requires k <= |lines|
    requires forall line :: line in lines[..k] ==> !IsHeader(line)
    requires k < |lines| ==> IsHeader(lines[k])
    ensures NextHeader(lines) == k
  {
  }

  /** A header-free opening run of lines ends at or before the first header. */
  lemma {:induction false} HeaderFreePrefix(lines: seq<string>, k: nat)
    requires k <= |lines|
    requires forall line :: line in lines[..k] ==> !IsHeader(line)
    ensures k <= NextHeader(lines)
  {
    if k > 0 {
      assert lines[0] == lines[..k][0];
      assert lines[1..][..k - 1] == lines[..k][1..];
      HeaderFreePrefix(lines[1..], k - 1);
    }
  }

  /** A group of lines as the scanner forms it: a header, then non-header lines only. */
  predicate WellFormed(group: seq<string>) {
    |group| > 0 && IsHeader(group[0]) && forall line :: line in group[1..] ==> !IsHeader(line)
  }

  /** A header on its own is a section. */
  lemma HeaderAloneWellFormed(line: string)
    requires IsHeader(line)
    ensures WellFormed([line])
  {
    assert [line][1..] == [];
  }

  /** The sections of a run of lines that starts at a header: every group is a
      header with the non-header lines that follow it, and the groups, in order,
      are exactly the input lines. */
  function Sections(lines: seq<string>): (groups: seq<seq<string>>)
    requires |lines| == 0 || IsHeader(lines[0])
    ensures forall g :: g in groups ==> WellFormed(g)
    ensures Flatten(groups) == lines
    decreases |lines|
  {
    if |lines| == 0 then []
    else
      var k := 1 + NextHeader(lines[1..]);
      var first := lines[..k];
      assert first[1..] == lines[1..][..k - 1];
      assert lines == first + lines[k..];
      [first] + Sections(lines[k..])
  }

  /** A well-formed group in front of a header-led run is that run's first section. */
  lemma SectionsCons(group: seq<string>, tail: seq<string>)
    requires WellFormed(group)
    requires |tail| == 0 || IsHeader(tail[0])
    ensures IsHeader((group + tail)[0])
    ensures Sections(group + tail) == [group] + Sections(tail)
  {
    var lines := group + tail;
    var k := |group|;
    var after := lines[1..];
    assert after[..k - 1] == group[1..];
    if k - 1 < |after| {
      assert after[k - 1] == tail[0];
    }
    NextHeaderIs(after, k - 1);
    assert lines[..k] == group;
    assert lines[k..] == tail;
  }

  /** The sections are the only way to cut the lines into well-formed groups: any
      sequence of well-formed groups is the sections of its concatenation. */
  lemma {:induction false} SectionsOfFlatten(groups: seq<seq<string>>)
    requires forall g :: g in groups ==> WellFormed(g)
    ensures |Flatten(groups)| == 0 || IsHeader(Flatten(groups)[0])
    ensures Sections(Flatten(groups)) == groups
  {
    if |groups| > 0 {
      var g := groups[0];
      var rest := groups[1..];
      assert forall x :: x in rest ==> x in groups;
      assert g in groups;
      SectionsOfFlatten(rest);
      SectionsCons(g, Flatten(rest));
      assert groups == [g] + rest;
    }
  }

  /** A single well-formed group is one section. */
  lemma SectionsOfOne(group: seq<string>)
    requires WellFormed(group)
    ensures Sections(group) == [group]
  {
    FlattenOne(group);
    SectionsOfFlatten([group]);
  }

  /** Cutting at a header: the sections of two header-led runs, one after the
      other, are the sections of each run, one after the other. */
  lemma SectionsAppend(a: seq<string>, b: seq<string>)
    requires |a| == 0 || IsHeader(a[0])
    requires |b| == 0 || IsHeader(b[0])
    ensures |a + b| == 0 || IsHeader((a + b)[0])
    ensures Sections(a + b) == Sections(a) + Sections(b)
  {
    var sa := Sections(a);
    var sb := Sections(b);
    FlattenAppend(sa, sb);
    SectionsOfFlatten(sa + sb);
  }

  /** Every line of every section is a line of the run it was cut from. */
  lemma SectionLinesFromRun(lines: seq<string>, group: seq<string>, x: string)
    requires |lines| == 0 || IsHeader(lines[0])
    requires group in Sections(lines) && x in group
    ensures x in lines
  {
    var gs := Sections(lines);
    var i :| 0 <= i < |gs| && gs[i] == group;
    FlattenMembers(gs, x);
  }

  /** Each section of a run, taken through `f`, in order: its text under a
      renderer, or its lines under a rewrite. */
  function Each<B>(groups: seq<seq<string>>, f: seq<string> -> B): seq<B> {
    seq(|groups|, i requires 0 <= i < |groups| => f(groups[i]))
  }

  /** Dropping the first section drops its image. */
  lemma EachTail<B>(groups: seq<seq<string>>, f: seq<string> -> B)
    requires |groups| > 0
    ensures Each(groups[1..], f) == Each(groups, f)[1..]
  {
  }

  /** The images of two runs of sections, one after the other, are the images of
      the runs put together. */
  lemma EachAppend<B>(a: seq<seq<string>>, b: seq<seq<string>>, f: seq<string> -> B)
    ensures Each(a + b, f) == Each(a, f) + Each(b, f)
  {
  }

  /** One more section adds one more image at the end. */
  lemma EachAppendOne<B>(groups: seq<seq<string>>, group: seq<string>, f: seq<string> -> B)
    ensures Each(groups + [group], f) == Each(groups, f) + [f(group)]
  {
    EachAppend(groups, [group], f);
  }

  /** Everything the scanner prints, one piece per print: the lines before the
      first header, then one rendered text per section. */
  function Pieces(lines: seq<string>, render: seq<string> -> string): seq<string> {
    var p := NextHeader(lines);
    lines[..p] + Each(Sections(lines[p..]), render)
  }

  /** The output as lines, when every section is replaced by lines of its own:
      the lines before the first header, then each section's rewrite. */
  function OutputLines(lines: seq<string>, rewrite: seq<string> -> seq<string>): seq<string> {
    var p := NextHeader(lines);
    lines[..p] + Flatten(Each(Sections(lines[p..]), rewrite))
  }

  /** If each section's text, followed by a newline, is its rewritten lines each
      followed by a newline, then so are the texts of a whole run of sections. */
  lemma {:induction false} TextsAreLines(groups: seq<seq<string>>, render: seq<string> -> string,
                                         rewrite: seq<string> -> seq<string>)
    requires forall g :: g in groups ==> render(g) + "\n" == Terminated(rewrite(g))
    ensures Terminated(Each(groups, render)) == Terminated(Flatten(Each(groups, rewrite)))
  {
    if |groups| > 0 {
      var ts := Each(groups, render);
      var rs := Each(groups, rewrite);
      assert forall g :: g in groups[1..] ==> g in groups;
      TextsAreLines(groups[1..], render, rewrite);
      EachTail(groups, render);
      EachTail(groups, rewrite);
      assert groups[0] in groups;
      assert Flatten(rs) == rs[0] + Flatten(rs[1..]);
      TerminatedAppend(rs[0], Flatten(rs[1..]));
    }
  }

  /** The printed text is the output lines, each followed by a newline, when that
      holds section by section. */
  lemma PiecesAreLines(lines: seq<string>, render: seq<string> -> string,
                       rewrite: seq<string> -> seq<string>)
    requires forall g :: WellFormed(g) ==> render(g) + "\n" == Terminated(rewrite(g))
    ensures Terminated(Pieces(lines, render)) == Terminated(OutputLines(lines, rewrite))
  {
    var p := NextHeader(lines);
    var gs := Sections(lines[p..]);
    TextsAreLines(gs, render, rewrite);
    TerminatedAppend(lines[..p], Each(gs, render));
    TerminatedAppend(lines[..p], Flatten(Each(gs, rewrite)));
  }

  /** Input without a header line is printed line for line. */
  lemma NoHeadersKept(lines: seq<string>, render: seq<string> -> string,
                      rewrite: seq<string> -> seq<string>)
    requires forall line :: line in lines ==> !IsHeader(line)
    ensures Pieces(lines, render) == lines
    ensures OutputLines(lines, rewrite) == lines
  {
    assert lines[..|lines|] == lines;
    NextHeaderIs(lines, |lines|);
    assert lines[|lines|..] == [];
  }

  /** Any header-free opening run of lines is printed first, each line followed by
      a newline. */
  lemma PreambleKept(lines: seq<string>, render: seq<string> -> string, k: nat)
    requires k <= |lines|
    requires forall line :: line in lines[..k] ==> !IsHeader(line)
    ensures StartsWith(Terminated(Pieces(lines, render)), Terminated(lines[..k]))
  {
    var p := NextHeader(lines);
    var ts := Each(Sections(lines[p..]), render);
    HeaderFreePrefix(lines, k);
    PrefixSplit(lines, k, p);
    TerminatedAppend(lines[..p], ts);
    TerminatedAppend(lines[..k], lines[k..p]);
  }

  /** A rewrite that keeps every section of a run keeps the run. */
  lemma EachFixed(groups: seq<seq<string>>, rewrite: seq<string> -> seq<string>)
    requires forall g :: g in groups ==> rewrite(g) == g
    ensures Each(groups, rewrite) == groups
  {
    var rs := Each(groups, rewrite);
    forall i | 0 <= i < |groups|
      ensures rs[i] == groups[i]
    {
      assert groups[i] in groups;
    }
  }

  /** A rewrite that keeps every section of the input keeps the whole input. */
  lemma FixedSectionsKept(lines: seq<string>, rewrite: seq<string> -> seq<string>)
    requires forall g :: g in Sections(lines[NextHeader(lines)..]) ==> rewrite(g) == g
    ensures OutputLines(lines, rewrite) == lines
  {
    var p := NextHeader(lines);
    EachFixed(Sections(lines[p..]), rewrite);
    SplitJoin(lines, p);
  }

  /** Input made of exactly two sections comes out as the two rewrites, one after
      the other. */
  lemma TwoSectionsOut(lines: seq<string>, a: seq<string>, b: seq<string>,
                       rewrite: seq<string> -> seq<string>)
    requires NextHeader(lines) == 0
    requires Sections(lines) == [a, b]
    ensures OutputLines(lines, rewrite) == rewrite(a) + rewrite(b)
  {
    var t := rewrite(a);
    var c := rewrite(b);
    assert Each([a, b], rewrite) == [t, c];
    FlattenAppend([t], [c]);
    FlattenOne(t);
    FlattenOne(c);
    assert [t] + [c] == [t, c];
    SplitJoin(lines, 0);
  }

  /** A rewrite that maps sections to sections and keeps its own results makes
      the whole output a fixed point: rewriting the output again gives it back. */
  lemma OutputIdempotent(lines: seq<string>, rewrite: seq<string> -> seq<string>)
    requires forall g :: WellFormed(g) ==> WellFormed(rewrite(g)) && rewrite(rewrite(g)) == rewrite(g)
    ensures OutputLines(OutputLines(lines, rewrite), rewrite) == OutputLines(lines, rewrite)
  {
    var p := NextHeader(lines);
    var gs := Sections(lines[p..]);
    var rs := Each(gs, rewrite);
    var out := OutputLines(lines, rewrite);
    forall i | 0 <= i < |rs|
      ensures WellFormed(rs[i]) && rewrite(rs[i]) == rs[i]
    {
      assert gs[i] in gs;
    }
    SectionsOfFlatten(rs);
    assert out[..p] == lines[..p];
    assert out[p..] == Flatten(rs);
    if p < |out| {
      assert out[p] == Flatten(rs)[0];
    }
    NextHeaderIs(out, p);
    assert Each(rs, rewrite) == rs;
  }

  /** The state of the scanning loop after the first `i` lines: before the first
      header (at `p`) the lines read so far are printed and no section is open;
      after it, the open section is `lines[start..i]` and the sections before it
      have been printed. */
  ghost predicate Scanned(lines: seq<string>, render: seq<string> -> string, p: nat, i: nat,
                          section: seq<string>, start: nat, out: string)
  {
    && p == NextHeader(lines)
    && i <= |lines|
    && (|section| == 0 ==> i <= p && out == Terminated(lines[..i]))
    && (|section| > 0 ==>
         && p <= start < i
         && section == lines[start..i]
         && WellFormed(section)
         && out == Terminated(lines[..p] + Each(Sections(lines[p..start]), render)))
  }

  /** A non-header line before the first header is printed as it is. */
  lemma ScanPreambleLine(lines: seq<string>, render: seq<string> -> string, p: nat, i: nat,
                         start: nat, out: string)
    requires Scanned(lines, render, p, i, [], start, out)
    requires i < |lines| && !IsHeader(lines[i])
    ensures Scanned(lines, render, p, i + 1, [], start, out + lines[i] + "\n")
  {
    TerminatedAppend(lines[..i], [lines[i]]);
    TerminatedOne(lines[i]);
    assert lines[..i + 1] == lines[..i] + [lines[i]];
  }

  /** A non-header line inside a section joins it. */
  lemma ScanBodyLine(lines: seq<string>, render: seq<string> -> string, p: nat, i: nat,
                     section: seq<string>, start: nat, out: string)
    requires Scanned(lines, render, p, i, section, start, out)
    requires i < |lines| && !IsHeader(lines[i]) && |section| > 0
    ensures Scanned(lines, render, p, i + 1, section + [lines[i]], start, out)
  {
    assert (section + [lines[i]])[1..] == section[1..] + [lines[i]];
    assert lines[start..i + 1] == section + [lines[i]];
  }

  /** A header line flushes the open section, if any, and opens its own. */
  lemma ScanHeaderLine(lines: seq<string>, render: seq<string> -> string, p: nat, i: nat,
                       section: seq<string>, start: nat, out: string)
    requires Scanned(lines, render, p, i, section, start, out)
    requires i < |lines| && IsHeader(lines[i])
    ensures Scanned(lines, render, p, i + 1, [lines[i]], i,
                    if |section| > 0 then out + render(section) + "\n" else out)
  {
    if |section| > 0 {
      FlushSection(lines, p, start, i, render);
    } else {
      assert lines[p..i] == [];
      assert lines[..i] + Each(Sections(lines[p..i]), render) == lines[..i];
    }
    SliceOne(lines, i);
    HeaderAloneWellFormed(lines[i]);
  }

  /** At the end of input, flushing the open section, if any, completes the output. */
  lemma ScanEnd(lines: seq<string>, render: seq<string> -> string, p: nat,
                section: seq<string>, start: nat, out: string)
    requires Scanned(lines, render, p, |lines|, section, start, out)
    ensures (if |section| > 0 then out + render(section) + "\n" else out)
         == Terminated(Pieces(lines, render))
  {
    if |section| > 0 {
      FlushSection(lines, p, start, |lines|, render);
      SliceToEnd(lines, p);
    } else {
      SliceToEnd(lines, p);
      assert lines[p..] == [];
      assert Pieces(lines, render) == lines[..p];
    }
  }

  /** The scanning loop of Go's `update`, with the section renderer as a parameter:
      header lines flush the section being gathered and open a new one, other
      lines join the open section or, before the first header, are printed
      straight away; the last section is flushed at the end. */
  method Scan(lines: seq<string>, render: seq<string> -> string) returns (out: string)
    ensures out == Terminated(Pieces(lines, render))
  {
    out := "";
    var section: seq<string> := [];
    ghost var p := NextHeader(lines);
    ghost var start := 0;
    var i := 0;
    while i < |lines|
      invariant Scanned(lines, render, p, i, section, start, out)
    {
      var line := lines[i];
      if IsHeader(line) {
        ScanHeaderLine(lines, render, p, i, section, start, out);
        if |section| > 0 {
          var text := render(section);
          section := [];
          out := out + text + "\n";
        }
        section := section + [line];
        start := i;
      } else if |section| > 0 {
        ScanBodyLine(lines, render, p, i, section, start, out);
        section := section + [line];
      } else {
        ScanPreambleLine(lines, render, p, i, start, out);
        out := out + line + "\n";
      }
      i := i + 1;
    }
    ScanEnd(lines, render, p, section, start, out);
    if |section| > 0 {
      var text := render(section);
      out := out + text + "\n";
    }
  }

  /** Closing the section `lines[start..end]`: the sections up to `end` are those
      up to `start` followed by that one section, so its text is printed next. */
  lemma FlushSection(lines: seq<string>, p: nat, start: nat, end: nat, render: seq<string> -> string)
    requires p == NextHeader(lines)
    requires p <= start < end <= |lines|
    requires WellFormed(lines[start..end])
    ensures |lines[p..start]| == 0 || IsHeader(lines[p..start][0])
    ensures |lines[p..end]| == 0 || IsHeader(lines[p..end][0])
    ensures Terminated(lines[..p] + Each(Sections(lines[p..end]), render))
         == Terminated(lines[..p] + Each(Sections(lines[p..start]), render))
            + render(lines[start..end]) + "\n"
  {
    var a := lines[p..start];
    var g := lines[start..end];
    assert lines[p..end] == a + g;
    SectionsOfOne(g);
    SectionsAppend(a, g);
    EachAppendOne(Sections(a), g, render);
    var ts := Each(Sections(a), render);
    var t := render(g);
    TerminatedAppend(lines[..p], ts + [t]);
    TerminatedAppend(ts, [t]);
    TerminatedAppend(lines[..p], ts);
    TerminatedOne(t);
    AppendAssoc(Terminated(lines[..p]), Terminated(ts), t, "\n");
  }
}
