/**
 The record normaliser shared by every entry point: the two dataclasses
 `SearchData` (a post of a listing) and `CommentData` (a comment of a post),
 and the rule `check_string_fields` applies to each of their string fields
 when a record is constructed.
 */
module Normalize {
  import opened Seqs

  /** Python's `str.isspace`: the characters that `str.strip()` removes. */
  predicate IsSpace(c: char) {
    || ('\t' <= c <= '\r')          // tab, line feed, vertical tab, form feed, carriage return
    || ('\U{1C}' <= c <= ' ')       // the four information separators and the space
    || c == '\U{85}' || c == '\U{A0}' || c == '\U{1680}'
    || ('\U{2000}' <= c <= '\U{200A}')
    || c == '\U{2028}' || c == '\U{2029}' || c == '\U{202F}' || c == '\U{205F}' || c == '\U{3000}'
  }

  predicate AllSpace(s: string) {
    forall i :: 0 <= i < |s| ==> IsSpace(s[i])
  }

  /** Neither end of `s` is whitespace. */
  predicate Trimmed(s: string) {
    s == [] || (!IsSpace(s[0]) && !IsSpace(s[|s| - 1]))
  }

  /** `s.lstrip()`: the longest suffix of `s` that does not start with whitespace. */
  function TrimLeft(s: string): (r: string)
    ensures |r| <= |s| && r == s[|s| - |r|..]
    ensures AllSpace(s[..|s| - |r|])
    ensures r == [] || !IsSpace(r[0])
  {
    if s != [] && IsSpace(s[0]) then
      var r := TrimLeft(s[1..]);
      TakeCons(s, |s| - |r|);
      r
    else
      s
  }

  /** `s.rstrip()`: the longest prefix of `s` that does not end with whitespace. */
  function TrimRight(s: string): (r: string)
    ensures |r| <= |s| && r == s[..|r|]
    ensures AllSpace(s[|r|..])
    ensures r == [] || !IsSpace(r[|r| - 1])
  {
    if s != [] && IsSpace(s[|s| - 1]) then
      var r := TrimRight(s[..|s| - 1]);
      DropSnoc(s, |r|);
      r
    else
      s
  }

  /** `s.strip()`. */
  function Strip(s: string): string {
    TrimRight(TrimLeft(s))
  }

  /**
   What `s.strip()` means, independently of how it is computed: `r` is a
   contiguous slice of `s`, everything cut off on either side is whitespace,
   and `r` itself neither starts nor ends with whitespace.
   */
  ghost predicate StrippedFrom(s: string, r: string) {
    exists i :: 0 <= i <= |s| - |r| && s[i..i + |r|] == r && AllSpace(s[..i]) && AllSpace(s[i + |r|..]) && Trimmed(r)
  }

  lemma StripMeetsSpec(s: string)
    ensures StrippedFrom(s, Strip(s))
  {
    var l := TrimLeft(s);
    var r := TrimRight(l);
    var i := |s| - |l|;
    DropThenTake(s, i, |r|);
    StripIsTrimmed(s);
    assert 0 <= i <= |s| - |r| && s[i..i + |r|] == r && AllSpace(s[..i]) && AllSpace(s[i + |r|..]) && Trimmed(r);
  }

  lemma AllSpaceTail(t: string)
    requires t != [] && AllSpace(t)
    ensures IsSpace(t[0]) && AllSpace(t[1..])
  {
    assert forall k :: 0 <= k < |t| - 1 ==> t[1..][k] == t[k + 1];
  }

  /** `TrimLeft` cuts exactly the whitespace before the first other character. */
  lemma {:induction false} TrimLeftAt(s: string, i: nat)
    requires i <= |s| && AllSpace(s[..i])
    requires i == |s| || !IsSpace(s[i])
    ensures TrimLeft(s) == s[i..]
  {
    if i > 0 {
      AllSpaceTail(s[..i]);
      TakeThenDrop(s, 1, i);
      DropThenTake(s, 1, i - 1);
      TrimLeftAt(s[1..], i - 1);
      assert s[..i][0] == s[0];
      assert TrimLeft(s) == TrimLeft(s[1..]);
    }
  }

  /** `TrimRight` cuts exactly the whitespace after the last other character. */
  lemma {:induction false} TrimRightAt(s: string, j: nat)
    requires j <= |s| && AllSpace(s[j..])
    requires j == 0 || !IsSpace(s[j - 1])
    ensures TrimRight(s) == s[..j]
  {
    if j < |s| {
      assert s[j..][|s| - 1 - j] == s[|s| - 1];
      var t := s[..|s| - 1];
      assert t[j..] == s[j..][..|s| - 1 - j];
      TrimRightAt(t, j);
      assert t[..j] == s[..j];
    }
  }

  lemma AllSpaceAround(s: string, i: nat)
    requires i <= |s| && AllSpace(s[..i]) && AllSpace(s[i..])
    ensures AllSpace(s)
  {
    forall k | 0 <= k < |s| ensures IsSpace(s[k]) {
      if k < i { assert s[..i][k] == s[k]; } else { assert s[i..][k - i] == s[k]; }
    }
  }

  /** Any slice meeting the conditions of `StrippedFrom` is the result of `strip()`. */
  lemma StripWitness(s: string, r: string, i: nat)
    requires i + |r| <= |s| && s[i..i + |r|] == r
    requires AllSpace(s[..i]) && AllSpace(s[i + |r|..]) && Trimmed(r)
    ensures r == Strip(s)
  {
    if r == [] {
      AllSpaceAround(s, i);
      assert s[..|s|] == s;
      TrimLeftAt(s, |s|);
    } else {
      assert s[i] == r[0];
      TrimLeftAt(s, i);
      var t := s[i..];
      assert t[|r|..] == s[i + |r|..];
      assert t[|r| - 1] == r[|r| - 1];
      TrimRightAt(t, |r|);
      assert t[..|r|] == r;
    }
  }

  /**
   The specification determines the result: `r` meets it exactly when `r`
   is what `strip()` returns.
   */
  lemma StrippedFromIsStrip(s: string, r: string)
    ensures StrippedFrom(s, r) <==> r == Strip(s)
  {
    StripMeetsSpec(s);
    if StrippedFrom(s, r) {
      var i :| 0 <= i <= |s| - |r| && s[i..i + |r|] == r && AllSpace(s[..i]) && AllSpace(s[i + |r|..]) && Trimmed(r);
      StripWitness(s, r, i);
    }
  }

  /** `strip()` leaves no whitespace at either end. */
  lemma StripIsTrimmed(s: string)
    ensures Trimmed(Strip(s))
  {
    var l := TrimLeft(s);
    var r := TrimRight(l);
    if r != [] {
      assert r[0] == l[0];
    }
  }

  /** `strip()` leaves an already trimmed string alone. */
  lemma StripTrimmed(s: string)
    requires Trimmed(s)
    ensures Strip(s) == s
  {
    assert s[0..0 + |s|] == s && s[..0] == [] && s[|s|..] == [];
    StrippedFromIsStrip(s, s);
  }

  /** `strip()` yields the empty string exactly on all-whitespace input. */
  lemma StripEmpty(s: string)
    ensures Strip(s) == [] <==> AllSpace(s)
  {
    StripMeetsSpec(s);
    if AllSpace(s) {
      assert s[..0] == [] && s[0..] == s;
      StrippedFromIsStrip(s, []);
    } else if Strip(s) == [] {
      var i :| 0 <= i <= |s| && s[i..i] == [] && AllSpace(s[..i]) && AllSpace(s[i..]);
      AllSpaceAround(s, i);
    }
  }

  /** The text written in place of an empty value: f"No {field.name}". */
  function Sentinel(fieldName: string): string {
    "No " + fieldName
  }

  /** The rule for one string field: the sentinel for an empty value, otherwise the value stripped. */
  ghost predicate FieldRule(fieldName: string, v: string, r: string) {
    && (v == [] ==> r == Sentinel(fieldName))
    && (v != [] ==> StrippedFrom(v, r))
  }

  /**
   The body of the loop in `check_string_fields` for one string field. The
   emptiness test comes first, so a value made only of whitespace is
   stripped to the empty string and does not receive the sentinel.
   */
  function NormalizeField(fieldName: string, v: string): string {
    if v == [] then Sentinel(fieldName) else Strip(v)
  }

  /** `NormalizeField` follows the rule, and its result is empty exactly for a non-empty run of whitespace. */
  lemma NormalizeFieldRule(fieldName: string, v: string)
    ensures FieldRule(fieldName, v, NormalizeField(fieldName, v))
    ensures NormalizeField(fieldName, v) == [] <==> v != [] && AllSpace(v)
  {
    if v != [] {
      StripMeetsSpec(v);
      StripEmpty(v);
    }
  }

  /**
   Normalising twice equals normalising once exactly when the value is not
   a non-empty run of whitespace: such a value becomes "" the first time
   and the sentinel the second time.
   */
  lemma NormalizeFieldTwice(fieldName: string, v: string)
    requires fieldName != [] && !IsSpace(fieldName[|fieldName| - 1])
    ensures NormalizeField(fieldName, NormalizeField(fieldName, v)) == NormalizeField(fieldName, v)
        <==> !(v != [] && AllSpace(v))
  {
    var r := NormalizeField(fieldName, v);
    NormalizeFieldRule(fieldName, v);
    if v == [] {
      var s := Sentinel(fieldName);
      assert s[0] == 'N' && s[|s| - 1] == fieldName[|fieldName| - 1];
      StripTrimmed(s);
    } else if !AllSpace(v) {
      StripIsTrimmed(v);
      StripTrimmed(r);
    }
  }

  /** A post of a listing; `upvote_ratio` is a float that is only carried along. */
  datatype SearchData = SearchData(name: string, author: string, permalink: string, upvoteRatio: real)

  /** A comment of a post. */
  datatype CommentData = CommentData(name: string, body: string, upvotes: int)

  /** `SearchData.check_string_fields`, run by `__post_init__`: one rule per string field. */
  function CheckSearchFields(d: SearchData): SearchData {
    SearchData(
      name := NormalizeField("name", d.name),
      author := NormalizeField("author", d.author),
      permalink := NormalizeField("permalink", d.permalink),
      upvoteRatio := d.upvoteRatio)
  }

  /** `CommentData.check_string_fields`, run by `__post_init__`. */
  function CheckCommentFields(d: CommentData): CommentData {
    CommentData(
      name := NormalizeField("name", d.name),
      body := NormalizeField("body", d.body),
      upvotes := d.upvotes)
  }

  /**
   Every string field of a post follows the rule and the ratio is carried
   unchanged; the dedup key is empty exactly when the title was a non-empty
   run of whitespace.
   */
  lemma CheckSearchFieldsRule(d: SearchData)
    ensures FieldRule("name", d.name, CheckSearchFields(d).name)
    ensures FieldRule("author", d.author, CheckSearchFields(d).author)
    ensures FieldRule("permalink", d.permalink, CheckSearchFields(d).permalink)
    ensures CheckSearchFields(d).upvoteRatio == d.upvoteRatio
    ensures CheckSearchFields(d).name == [] <==> d.name != [] && AllSpace(d.name)
  {
    NormalizeFieldRule("name", d.name);
    NormalizeFieldRule("author", d.author);
    NormalizeFieldRule("permalink", d.permalink);
  }

  /** Every string field of a comment follows the rule and the vote count is carried unchanged. */
  lemma CheckCommentFieldsRule(d: CommentData)
    ensures FieldRule("name", d.name, CheckCommentFields(d).name)
    ensures FieldRule("body", d.body, CheckCommentFields(d).body)
    ensures CheckCommentFields(d).upvotes == d.upvotes
    ensures CheckCommentFields(d).name == [] <==> d.name != [] && AllSpace(d.name)
  {
    NormalizeFieldRule("name", d.name);
    NormalizeFieldRule("body", d.body);
  }

  /** An empty value gets the sentinel: "" becomes "No name". */
  lemma EmptyExample()
    ensures NormalizeField("name", "") == "No name"
  {
  }

  /** A padded value is stripped: "  Alice  " becomes "Alice". */
  lemma PaddedExample()
    ensures NormalizeField("body", "  Alice  ") == "Alice"
  {
    var alice := "  Alice  ";
    assert alice[2..7] == "Alice" && alice[..2] == "  " && alice[7..] == "  ";
    StripWitness(alice, "Alice", 2);
  }

  /** A whitespace-only value is stripped to "", not replaced by the sentinel. */
  lemma BlankExample()
    ensures NormalizeField("name", "   ") == ""
  {
    var blank := "   ";
    assert forall i :: 0 <= i < |blank| ==> blank[i] == ' ';
    StripEmpty(blank);
  }
}
