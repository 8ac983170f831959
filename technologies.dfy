/** The technologies text field of the draft form: the list is shown as
    `technologies.join(', ')` and every edit stores `value.split(', ')`.
    Both follow JavaScript's `Array.prototype.join` and `String.prototype.split`
    for a two-character separator: tokens are not trimmed, and splitting the
    empty string gives one empty token. */
module Technologies {

  /** The separator used in both directions. */
  const Sep: string := ", "

  /** The separator starts at index `i` of `t`. */
  predicate SepAt(t: string, i: int) {
    0 <= i && i + 2 <= |t| && t[i..i + 2] == Sep
  }

  /** `t.includes(', ')`. */
  predicate ContainsSep(t: string) {
    exists i :: 0 <= i < |t| && SepAt(t, i)
  }

  /** `parts.join(', ')`: no separator before the first or after the last part.
      The empty list shows as the empty text, and the text starts with the first part. */
  function Join(parts: seq<string>): (r: string)
    ensures |parts| == 0 ==> r == ""
    ensures |parts| >= 1 ==> parts[0] <= r
  {
    if |parts| == 0 then ""
    else if |parts| == 1 then parts[0]
    else parts[0] + Sep + Join(parts[1..])
  }

  /** `s.split(', ')`: scanning from the left, every occurrence of the
      separator ends one token; the text after the last one is the last token. */
  function Split(s: string): (r: seq<string>)
    ensures |r| >= 1
    ensures r[0] <= s
  {
    if |s| < 2 then [s]
    else if s[..2] == Sep then [""] + Split(s[2..])
    else
      var rest := Split(s[1..]);
      [[s[0]] + rest[0]] + rest[1..]
  }

  /** Prepending a character to the first part prepends it to the joined text. */
  lemma {:induction false} JoinConsFirst(c: char, parts: seq<string>)
    requires |parts| >= 1
    ensures Join([[c] + parts[0]] + parts[1..]) == [c] + Join(parts)
  {
    var q := [[c] + parts[0]] + parts[1..];
    assert q[1..] == parts[1..];
  }

  /** Showing the stored list gives back exactly the text that was typed,
      whatever the text is: `split(s).join(', ') == s`. */
  lemma {:induction false} JoinSplit(s: string)
    ensures Join(Split(s)) == s
    decreases |s|
  {
    if |s| < 2 {
    } else if s[..2] == Sep {
      var rest := Split(s[2..]);
      JoinSplit(s[2..]);
      var r := [""] + rest;
      assert r[1..] == rest;
      assert Join(r) == "" + Sep + Join(rest);
      assert s == s[..2] + s[2..];
    } else {
      var rest := Split(s[1..]);
      JoinSplit(s[1..]);
      JoinConsFirst(s[0], rest);
      assert s == [s[0]] + s[1..];
    }
  }

  /** A token-free text (one without the separator) splits into itself. */
  lemma {:induction false} SplitWithoutSep(p: string)
    requires !ContainsSep(p)
    ensures Split(p) == [p]
    decreases |p|
  {
    if |p| >= 2 {
      assert !SepAt(p, 0);
      assert p[..2] != Sep;
      forall i | SepAt(p[1..], i) ensures SepAt(p, i + 1) {
        assert p[1..][i..i + 2] == p[i + 1..i + 3];
      }
      SplitWithoutSep(p[1..]);
      assert [p[0]] + p[1..] == p;
    }
  }

  /** A separator-free leading part is cut off as the first token. */
  lemma {:induction false} SplitAfterPart(p: string, u: string)
    requires !ContainsSep(p)
    ensures Split(p + Sep + u) == [p] + Split(u)
    decreases |p|
  {
    var s := p + Sep + u;
    if |p| == 0 {
      assert s[..2] == Sep;
      assert s[2..] == u;
    } else {
      if |p| >= 2 {
        assert !SepAt(p, 0);
        assert s[..2] == p[..2];
      } else {
        assert s[1] == ',';
      }
      assert s[..2] != Sep;
      forall i | SepAt(p[1..], i) ensures SepAt(p, i + 1) {
        assert p[1..][i..i + 2] == p[i + 1..i + 3];
      }
      assert s[1..] == p[1..] + Sep + u;
      SplitAfterPart(p[1..], u);
      assert [p[0]] + p[1..] == p;
    }
  }

  /** The converse round trip: a non-empty list whose elements do not contain
      the separator survives `join` followed by `split`. */
  lemma {:induction false} SplitJoin(parts: seq<string>)
    requires |parts| >= 1
    requires forall k :: 0 <= k < |parts| ==> !ContainsSep(parts[k])
    ensures Split(Join(parts)) == parts
    decreases |parts|
  {
    if |parts| == 1 {
      SplitWithoutSep(parts[0]);
    } else {
      SplitAfterPart(parts[0], Join(parts[1..]));
      SplitJoin(parts[1..]);
      assert [parts[0]] + parts[1..] == parts;
    }
  }

  /** No token produced by `split` contains the separator. */
  lemma {:induction false} SplitTokensWithoutSep(s: string)
    ensures forall k :: 0 <= k < |Split(s)| ==> !ContainsSep(Split(s)[k])
    decreases |s|
  {
    var r := Split(s);
    if |s| < 2 {
      forall i | 0 <= i ensures !SepAt(s, i) { }
    } else if s[..2] == Sep {
      SplitTokensWithoutSep(s[2..]);
      assert !SepAt(r[0], 0);
      assert r[1..] == Split(s[2..]);
    } else {
      var rest := Split(s[1..]);
      SplitTokensWithoutSep(s[1..]);
      var t := [s[0]] + rest[0];
      forall i | 0 <= i < |t| ensures !SepAt(t, i) {
        if i == 0 && 2 <= |t| {
          assert rest[0][0] == s[1..][0];
          assert t[..2] == s[..2];
        } else if 0 < i && i + 2 <= |t| {
          assert t[i..i + 2] == rest[0][i - 1..i + 1];
          assert !SepAt(rest[0], i - 1);
        }
      }
      assert r[1..] == rest[1..];
      forall k | 1 <= k < |r| ensures !ContainsSep(r[k]) {
        assert r[k] == rest[k];
      }
    }
  }

  /** `split` is the only way to read a text as a list of separator-free
      tokens: any such non-empty list that joins to `s` is `Split(s)`. */
  lemma SplitUnique(s: string, parts: seq<string>)
    requires |parts| >= 1
    requires forall k :: 0 <= k < |parts| ==> !ContainsSep(parts[k])
    requires Join(parts) == s
    ensures parts == Split(s)
  {
    SplitJoin(parts);
  }

  /** A text without any comma cannot contain the separator. */
  lemma NoCommaNoSep(t: string)
    requires forall k :: 0 <= k < |t| ==> t[k] != ','
    ensures !ContainsSep(t)
  {
    forall i | 0 <= i < |t| && i + 2 <= |t| ensures !SepAt(t, i) {
      assert t[i..i + 2][0] == t[i];
    }
  }

  /** Clearing the field stores one empty token, not an empty list, while both
      are shown as the empty text; and a bare comma is not a separator. */
  lemma EmptyTextAndBareComma()
    ensures Split("") == [""] && Join([]) == "" && Join([""]) == ""
    ensures Split("React,Go") == ["React,Go"]
  {
    var s := "React,Go";
    forall i | 0 <= i < |s| && i + 2 <= |s| ensures !SepAt(s, i) {
      assert s[i..i + 2][1] == s[i + 1];
    }
    assert !ContainsSep(s);
    SplitWithoutSep(s);
  }

  /** The form's own hint, "React, Tailwind CSS", is stored as two tokens. */
  lemma SplitHintExample()
    ensures Split("React, Tailwind CSS") == ["React", "Tailwind CSS"]
  {
    var a, b := "React", "Tailwind CSS";
    NoCommaNoSep(a);
    NoCommaNoSep(b);
    SplitJoin([a, b]);
    assert Join([a, b]) == a + Sep + b;
    assert a + Sep + b == "React, Tailwind CSS";
  }
}
