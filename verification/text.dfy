/**
 Text helpers used by the manifest rewriter: prefix tests, joining lines with a
 newline separator, writing lines each followed by a newline, and flattening a
 sequence of line groups.
 */
module Text {

  /** True if `s` begins with `prefix` (Go's strings.HasPrefix). */
  predicate StartsWith(s: string, prefix: string) {
    |prefix| <= |s| && s[..|prefix|] == prefix
  }

  /** The text written by one `fmt.Fprintln` per line: every line followed by "\n". */
  function Terminated(lines: seq<string>): string {
    if |lines| == 0 then "" else lines[0] + "\n" + Terminated(lines[1..])
  }

  /** Go's strings.Join(parts, "\n"): the parts separated, not followed, by newlines.
      Joining a non-empty group and then adding one newline gives the same text as
      terminating every part. */
  function JoinLines(parts: seq<string>): (r: string)
    ensures |parts| == 0 ==> r == ""
    ensures |parts| > 0 ==> r + "\n" == Terminated(parts)
  {
    if |parts| == 0 then ""
    else if |parts| == 1 then parts[0]
    else parts[0] + "\n" + JoinLines(parts[1..])
  }

  /** Three parts joined: two separators, no newline after the last part. */
  lemma JoinThree(a: string, b: string, c: string)
    ensures JoinLines([a, b, c]) == a + "\n" + b + "\n" + c
  {
    assert [a, b, c][1..] == [b, c];
    assert [b, c][1..] == [c];
    assert JoinLines([c]) == c;
    assert JoinLines([b, c]) == b + "\n" + c;
  }

  /** The concatenation of all groups, in order. */
  function Flatten<T>(groups: seq<seq<T>>): seq<T> {
    if |groups| == 0 then [] else groups[0] + Flatten(groups[1..])
  }

  /** Writing two runs of lines one after the other is writing their concatenation. */
  lemma {:induction false} TerminatedAppend(a: seq<string>, b: seq<string>)
    ensures Terminated(a + b) == Terminated(a) + Terminated(b)
  {
    if |a| == 0 {
      assert a + b == b;
    } else {
      assert (a + b)[1..] == a[1..] + b;
      TerminatedAppend(a[1..], b);
    }
  }

  /** A single line, terminated. */
  lemma TerminatedOne(line: string)
    ensures Terminated([line]) == line + "\n"
  {
    assert [line][1..] == [];
  }

  /** Regrouping four pieces of text. */
  lemma AppendAssoc(a: string, b: string, c: string, d: string)
    ensures a + (b + (c + d)) == a + b + c + d
  {
  }

  /** A prefix of a sequence, cut once more. */
  lemma PrefixSplit<T>(s: seq<T>, k: nat, p: nat)
    requires k <= p <= |s|
    ensures s[..p] == s[..k] + s[k..p]
  {
  }

  /** The one-element slice at `i`. */
  lemma SliceOne<T>(s: seq<T>, i: nat)
    requires i < |s|
    ensures s[i..i + 1] == [s[i]]
  {
  }

  /** Slicing up to the end is dropping. */
  lemma SliceToEnd<T>(s: seq<T>, p: nat)
    requires p <= |s|
    ensures s[p..|s|] == s[p..]
    ensures s[..|s|] == s
  {
  }

  /** Cutting a sequence in two and putting it back together. */
  lemma SplitJoin<T>(s: seq<T>, p: nat)
    requires p <= |s|
    ensures s[..p] + s[p..] == s
  {
  }

  /** A single group, flattened, is that group. */
  lemma FlattenOne<T>(group: seq<T>)
    ensures Flatten([group]) == group
  {
    assert [group][1..] == [];
  }

  /** Flattening distributes over concatenation of the group sequences. */
  lemma {:induction false} FlattenAppend<T>(a: seq<seq<T>>, b: seq<seq<T>>)
    ensures Flatten(a + b) == Flatten(a) + Flatten(b)
  {
    if |a| == 0 {
      assert a + b == b;
    } else {
      assert (a + b)[1..] == a[1..] + b;
      FlattenAppend(a[1..], b);
    }
  }

  /** Every element of every group occurs in the flattened sequence, and nothing else does. */
  lemma {:induction false} FlattenMembers<T>(groups: seq<seq<T>>, x: T)
    ensures x in Flatten(groups) <==> exists i :: 0 <= i < |groups| && x in groups[i]
  {
    if |groups| > 0 {
      FlattenMembers(groups[1..], x);
      if x in groups[0] {
        assert 0 <= 0 < |groups| && x in groups[0];
      }
      if exists i :: 0 < i < |groups| && x in groups[i] {
        var i :| 0 < i < |groups| && x in groups[i];
        assert groups[1..][i - 1] == groups[i];
      }
      if exists i :: 0 <= i < |groups[1..]| && x in groups[1..][i] {
        var i :| 0 <= i < |groups[1..]| && x in groups[1..][i];
        assert groups[i + 1] == groups[1..][i];
      }
    }
  }
}
