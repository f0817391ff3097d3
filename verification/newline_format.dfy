/**
  The `newlineformat` pipe: renders assistant text as HTML by replacing every
  line feed with a `<br/>` tag. The sanitizer wrapper around the result is not
  part of this model; the pipe's value is the plain string it wraps.
 */
module NewlineFormat {
  import opened Common

  const LineFeed: char := '\n'
  const BreakTag: string := "<br/>"

  predicate NewlineFree(s: string) {
    forall i :: 0 <= i < |s| ==> s[i] != LineFeed
  }

  /** Number of line feeds in `s`. */
  function Newlines(s: string): nat {
    if s == [] then 0 else (if s[0] == LineFeed then 1 else 0) + Newlines(s[1..])
  }

  /** The count is additive over concatenation. */
  lemma {:induction false} NewlinesAppend(a: string, b: string)
    ensures Newlines(a + b) == Newlines(a) + Newlines(b)
    decreases |a|
  {
    if a != [] {
      assert (a + b)[1..] == a[1..] + b;
      NewlinesAppend(a[1..], b);
    } else {
      assert a + b == b;
    }
  }

  /** The count is the multiplicity of the line feed in the multiset of characters. */
  lemma {:induction false} NewlinesIsMultiplicity(s: string)
    ensures Newlines(s) == multiset(s)[LineFeed]
    decreases |s|
  {
    if s != [] {
      assert s == [s[0]] + s[1..];
      NewlinesIsMultiplicity(s[1..]);
    }
  }

  /** What one input character becomes in the output. */
  function Expand(c: char): string {
    if c == LineFeed then BreakTag else [c]
  }

  /** `value.replace(/\n/g, '<br/>')`: the global replacement of a single character. */
  function ReplaceNewlines(s: string): (r: string)
    ensures NewlineFree(r)
    ensures |r| == |s| + 4 * Newlines(s)
    decreases |s|
  {
    if s == [] then ""
    else
      assert s == [s[0]] + s[1..];
      Expand(s[0]) + ReplaceNewlines(s[1..])
  }

  /**
    `transform(value)`: a missing (`null`/`undefined`) or empty input yields the
    empty string; any other input has its line feeds replaced.
   */
  function Transform(value: Option<string>): (r: string)
    ensures value.None? ==> r == ""
    ensures NewlineFree(r)
    ensures value.Some? ==> |r| == |value.value| + 4 * Newlines(value.value)
  {
    match value
    case None => ""
    case Some(s) => if s == "" then "" else ReplaceNewlines(s)
  }

  /** The replacement works character by character: it distributes over concatenation. */
  lemma {:induction false} ReplaceDistributes(a: string, b: string)
    ensures ReplaceNewlines(a + b) == ReplaceNewlines(a) + ReplaceNewlines(b)
    decreases |a|
  {
    if a == [] {
      assert a + b == b;
    } else {
      assert (a + b)[0] == a[0];
      assert (a + b)[1..] == a[1..] + b;
      ReplaceDistributes(a[1..], b);
    }
  }

  /** Input without line feeds comes back unchanged. */
  lemma {:induction false} NewlineFreeUnchanged(s: string)
    requires NewlineFree(s)
    ensures ReplaceNewlines(s) == s
    decreases |s|
  {
    if s != [] {
      NewlineFreeUnchanged(s[1..]);
      assert s == [s[0]] + s[1..];
    }
  }

  /** Applying the pipe twice gives the same text as applying it once. */
  lemma TransformIdempotent(value: Option<string>)
    ensures Transform(Some(Transform(value))) == Transform(value)
  {
    var once := Transform(value);
    if once != "" {
      NewlineFreeUnchanged(once);
    }
  }

  /**
    Every input character has its own block in the output, in input order: the
    block of `s[i]` starts after the blocks of `s[..i]`, and is `<br/>` for a
    line feed and the character itself for anything else.
   */
  lemma PositionsCorrespond(s: string, i: nat)
    requires i < |s|
    ensures var r := ReplaceNewlines(s);
            var at := i + 4 * Newlines(s[..i]);
            if s[i] == LineFeed then at + 5 <= |r| && r[at..at + 5] == BreakTag
            else at < |r| && r[at] == s[i]
  {
    var pre, post := ReplaceNewlines(s[..i]), ReplaceNewlines(s[i + 1..]);
    var mid := Expand(s[i]);
    assert s == s[..i] + ([s[i]] + s[i + 1..]);
    ReplaceDistributes(s[..i], [s[i]] + s[i + 1..]);
    ReplaceDistributes([s[i]], s[i + 1..]);
    assert ReplaceNewlines([s[i]]) == mid by {
      assert [s[i]][1..] == [];
    }
    assert ReplaceNewlines(s) == pre + mid + post;
    NewlinesAppend(s[..i], [s[i]] + s[i + 1..]);
    assert |pre| == i + 4 * Newlines(s[..i]);
    SliceOfConcat(pre, mid, post);
    if s[i] == LineFeed {
      assert mid == BreakTag;
    } else {
      assert mid == [s[i]];
      assert ReplaceNewlines(s)[|pre|] == ReplaceNewlines(s)[|pre|..|pre| + 1][0];
    }
  }

  /** The middle part of a three-way concatenation is found at its offset. */
  lemma SliceOfConcat(pre: string, mid: string, post: string)
    ensures var r := pre + mid + post;
            |pre| + |mid| <= |r| && r[|pre|..|pre| + |mid|] == mid
  {
  }

  /** A carriage return is an ordinary character: `"\r\n"` becomes `"\r<br/>"`. */
  lemma CarriageReturnKept()
    ensures Transform(Some("\r\n")) == "\r<br/>"
  {
  }

  /** A concrete line: `"a\nb"` becomes `"a<br/>b"`. */
  lemma ReplacesInsideText()
    ensures Transform(Some("a\nb")) == "a<br/>b"
  {
  }
}
