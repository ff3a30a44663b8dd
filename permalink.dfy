/**
 The name of a post's comment file, derived from its permalink in
 `process_post`: the second-to-last `/`-separated segment of the permalink,
 with every space replaced by `-`.
 */
module Permalink {

  datatype Option<T> = None | Some(value: T)

  /** Concatenate `parts`, with `sep` between neighbours (`sep.join(parts)`). */
  function Join(parts: seq<string>, sep: char): string
    requires |parts| >= 1
  {
    if |parts| == 1 then parts[0] else parts[0] + [sep] + Join(parts[1..], sep)
  }

  /** `s.split(sep)`: the pieces between separators, empty ones included; never an empty list. */
  function Split(s: string, sep: char): (parts: seq<string>)
    ensures |parts| >= 1
    ensures forall i :: 0 <= i < |parts| ==> sep !in parts[i]
    ensures Join(parts, sep) == s
  {
    if s == [] then [[]]
    else
      var rest := Split(s[1..], sep);
      if s[0] == sep then
        assert [sep] + Join(rest, sep) == s;
        [[]] + rest
      else
        var parts := [[s[0]] + rest[0]] + rest[1..];
        assert parts[1..] == rest[1..];
        assert s == [s[0]] + s[1..];
        parts
  }

  lemma {:induction false} SplitNoSeparator(p: string, sep: char)
    requires sep !in p
    ensures Split(p, sep) == [p]
  {
    if p != [] {
      SplitNoSeparator(p[1..], sep);
      assert [p[0]] + p[1..] == p;
    }
  }

  lemma {:induction false} SplitAtSeparator(p: string, sep: char, x: string)
    requires sep !in p
    ensures Split(p + [sep] + x, sep) == [p] + Split(x, sep)
  {
    var s := p + [sep] + x;
    if p == [] {
      assert s[1..] == x;
    } else {
      assert s[1..] == p[1..] + [sep] + x;
      SplitAtSeparator(p[1..], sep, x);
      assert [p[0]] + p[1..] == p;
    }
  }

  /** Splitting undoes joining pieces that hold no separator. */
  lemma {:induction false} SplitJoin(parts: seq<string>, sep: char)
    requires |parts| >= 1
    requires forall i :: 0 <= i < |parts| ==> sep !in parts[i]
    ensures Split(Join(parts, sep), sep) == parts
  {
    if |parts| == 1 {
      SplitNoSeparator(parts[0], sep);
    } else {
      SplitJoin(parts[1..], sep);
      SplitAtSeparator(parts[0], sep, Join(parts[1..], sep));
    }
  }

  lemma {:induction false} JoinAppend(a: seq<string>, b: seq<string>, sep: char)
    requires |a| >= 1 && |b| >= 1
    ensures Join(a + b, sep) == Join(a, sep) + [sep] + Join(b, sep)
  {
    if |a| > 1 {
      assert (a + b)[1..] == a[1..] + b;
      JoinAppend(a[1..], b, sep);
    } else {
      assert (a + b)[1..] == b;
    }
  }

  /** A string splits into a single piece exactly when it holds no separator. */
  lemma SplitSingle(s: string, sep: char)
    ensures |Split(s, sep)| == 1 <==> sep !in s
  {
    if sep !in s {
      SplitNoSeparator(s, sep);
    }
  }

  /** `s.replace(" ", "-")`, character by character. */
  function ReplaceSpaces(s: string): (r: string)
    ensures |r| == |s|
    ensures forall i :: 0 <= i < |s| ==> r[i] == if s[i] == ' ' then '-' else s[i]
  {
    if s == [] then [] else [if s[0] == ' ' then '-' else s[0]] + ReplaceSpaces(s[1..])
  }

  /**
   `permalink.split("/")[-2].replace(" ", "-")`; `None` stands for the
   IndexError raised when the permalink holds no `/`.
   */
  function FilenameOf(permalink: string): Option<string> {
    var parts := Split(permalink, '/');
    if |parts| < 2 then None else Some(ReplaceSpaces(parts[|parts| - 2]))
  }

  /** The derivation fails exactly on a permalink without `/`. */
  lemma FilenameFails(permalink: string)
    ensures FilenameOf(permalink).None? <==> '/' !in permalink
  {
    SplitSingle(permalink, '/');
  }

  /** The file name is the segment between the last two `/`, with spaces replaced. */
  lemma FilenameIsSegment(front: string, segment: string, tail: string)
    requires '/' !in segment && '/' !in tail
    ensures FilenameOf(front + "/" + segment + "/" + tail) == Some(ReplaceSpaces(segment))
  {
    var pf := Split(front, '/');
    var parts := pf + [segment, tail];
    JoinAppend(pf, [segment, tail], '/');
    assert Join([segment, tail], '/') == segment + "/" + tail;
    assert Join(parts, '/') == front + "/" + segment + "/" + tail;
    forall i | 0 <= i < |parts| ensures '/' !in parts[i] {
      if i < |pf| { assert parts[i] == pf[i]; }
    }
    SplitJoin(parts, '/');
  }

  /** With a single "/", the file name is the segment before it, with spaces replaced. */
  lemma FilenameOneSlash(segment: string, tail: string)
    requires '/' !in segment && '/' !in tail
    ensures FilenameOf(segment + "/" + tail) == Some(ReplaceSpaces(segment))
  {
    var parts := [segment, tail];
    assert Join(parts, '/') == segment + "/" + tail;
    SplitJoin(parts, '/');
  }

  /** A reddit permalink ends in "/", so its file is named after the title slug. */
  lemma RedditPermalink()
    ensures FilenameOf("/r/x/comments/abc/title/") == Some("title")
  {
    assert "/r/x/comments/abc/title/" == "/r/x/comments/abc" + "/" + "title" + "/" + "";
    FilenameIsSegment("/r/x/comments/abc", "title", "");
    assert ReplaceSpaces("title") == "title";
  }
}
