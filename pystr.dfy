/**
 * Python's string operations as the serializers use them: `s.split(sep)`,
 * `sep.join(parts)` and `s.replace(pat, rep)`, on strings of characters.
 * Only non-empty separators and patterns are modelled (the serializers
 * pass the literals ':', '\n' and '<img').
 */
module PyStr {

  /** `p` occurs in `s` starting at index `j`. */
  predicate OccursAt(s: string, p: string, j: nat)
  {
    j + |p| <= |s| && s[j..j + |p|] == p
  }

  predicate Contains(s: string, p: string)
  {
    exists j: nat :: j <= |s| && OccursAt(s, p, j)
  }

  /** The number of occurrences of the character `c` in `s`. */
  function CountChar(s: string, c: char): nat
  {
    if s == [] then 0 else (if s[0] == c then 1 else 0) + CountChar(s[1..], c)
  }

  /** Python's `sep.join(parts)`. */
  function Join(parts: seq<string>, sep: string): string
  {
    if |parts| == 0 then ""
    else if |parts| == 1 then parts[0]
    else parts[0] + sep + Join(parts[1..], sep)
  }

  /**
   * Python's `s.split(sep)` with an explicit separator: the text is cut at
   * every occurrence of `sep`, found left to right without overlap. There is
   * always at least one part, and empty parts are kept.
   */
  function Split(s: string, sep: string): (parts: seq<string>)
    requires |sep| > 0
    ensures |parts| >= 1
    decreases |s|
  {
    if |s| < |sep| then [s]
    else if s[..|sep|] == sep then [""] + Split(s[|sep|..], sep)
    else
      var rest := Split(s[1..], sep);
      [[s[0]] + rest[0]] + rest[1..]
  }

  /**
   * Python's `s.replace(pat, rep)`: a left-to-right scan that rewrites each
   * non-overlapping occurrence of `pat`.
   */
  function Replace(s: string, pat: string, rep: string): string
    requires |pat| > 0
    decreases |s|
  {
    if |s| < |pat| then s
    else if s[..|pat|] == pat then rep + Replace(s[|pat|..], pat, rep)
    else [s[0]] + Replace(s[1..], pat, rep)
  }

  lemma JoinConsChar(c: char, parts: seq<string>, sep: string)
    requires |parts| >= 1
    ensures Join([[c] + parts[0]] + parts[1..], sep) == [c] + Join(parts, sep)
  {
  }

  /** Joining the parts of a split with the same separator gives the text back. */
  lemma {:induction false} JoinSplit(s: string, sep: string)
    requires |sep| > 0
    ensures Join(Split(s, sep), sep) == s
    decreases |s|
  {
    if |s| < |sep| {
    } else if s[..|sep|] == sep {
      var rest := Split(s[|sep|..], sep);
      JoinSplit(s[|sep|..], sep);
      assert ([""] + rest)[1..] == rest;
      assert s == sep + s[|sep|..];
    } else {
      var rest := Split(s[1..], sep);
      JoinSplit(s[1..], sep);
      JoinConsChar(s[0], rest, sep);
      assert s == [s[0]] + s[1..];
    }
  }

  /** No part of a split contains the separator. */
  lemma {:induction false} SplitPartsAvoidSep(s: string, sep: string)
    requires |sep| > 0
    ensures forall i :: 0 <= i < |Split(s, sep)| ==> !Contains(Split(s, sep)[i], sep)
    decreases |s|
  {
    var parts := Split(s, sep);
    if |s| < |sep| {
      forall j: nat | j <= |s| ensures !OccursAt(s, sep, j) { }
    } else if s[..|sep|] == sep {
      SplitPartsAvoidSep(s[|sep|..], sep);
      assert !Contains("", sep) by {
        forall j: nat | j <= 0 ensures !OccursAt("", sep, j) { }
      }
      assert parts == [""] + Split(s[|sep|..], sep);
    } else {
      var rest := Split(s[1..], sep);
      SplitPartsAvoidSep(s[1..], sep);
      var head := [s[0]] + rest[0];
      assert !Contains(head, sep) by {
        forall j: nat | j <= |head| ensures !OccursAt(head, sep, j) {
          if j == 0 {
            if |sep| <= |head| {
              // the first |sep| characters of head are those of s
              SplitHeadIsPrefix(s[1..], sep);
              assert head == s[..|head|];
              assert head[..|sep|] == s[..|sep|];
            }
          } else if j + |sep| <= |head| {
            assert rest[0][j - 1..j - 1 + |sep|] == head[j..j + |sep|];
            assert !Contains(rest[0], sep);
            assert !OccursAt(rest[0], sep, j - 1);
          }
        }
      }
      forall i | 0 <= i < |parts| ensures !Contains(parts[i], sep) {
        if i > 0 {
          assert parts[i] == rest[i];
        }
      }
    }
  }

  /** The first part of a split is a prefix of the text. */
  lemma {:induction false} SplitHeadIsPrefix(s: string, sep: string)
    requires |sep| > 0
    ensures |Split(s, sep)[0]| <= |s| && s[..|Split(s, sep)[0]|] == Split(s, sep)[0]
    decreases |s|
  {
    if |s| < |sep| {
    } else if s[..|sep|] == sep {
    } else {
      SplitHeadIsPrefix(s[1..], sep);
    }
  }

  /** A text without the separator splits into itself alone. */
  lemma {:induction false} SplitWithoutSep(s: string, sep: string)
    requires |sep| > 0
    ensures !Contains(s, sep) ==> Split(s, sep) == [s]
    decreases |s|
  {
    if |s| < |sep| {
    } else if s[..|sep|] == sep {
      assert OccursAt(s, sep, 0);
    } else if !Contains(s, sep) {
      assert !Contains(s[1..], sep) by {
        forall j: nat | j <= |s[1..]| ensures !OccursAt(s[1..], sep, j) {
          if j + |sep| <= |s[1..]| {
            assert s[1..][j..j + |sep|] == s[j + 1..j + 1 + |sep|];
            assert !OccursAt(s, sep, j + 1);
          }
        }
      }
      SplitWithoutSep(s[1..], sep);
      assert [s[0]] + s[1..] == s;
    }
  }

  /**
   * Python's `replace` agrees with splitting on the pattern and joining with
   * the replacement.
   */
  lemma {:induction false} ReplaceIsJoinOfSplit(s: string, pat: string, rep: string)
    requires |pat| > 0
    ensures Replace(s, pat, rep) == Join(Split(s, pat), rep)
    decreases |s|
  {
    if |s| < |pat| {
    } else if s[..|pat|] == pat {
      var rest := Split(s[|pat|..], pat);
      ReplaceIsJoinOfSplit(s[|pat|..], pat, rep);
      assert ([""] + rest)[1..] == rest;
    } else {
      var rest := Split(s[1..], pat);
      ReplaceIsJoinOfSplit(s[1..], pat, rep);
      JoinConsChar(s[0], rest, rep);
    }
  }

  /** Replacing a pattern that does not occur leaves the text unchanged. */
  lemma ReplaceWithoutOccurrence(s: string, pat: string, rep: string)
    requires |pat| > 0
    ensures !Contains(s, pat) ==> Replace(s, pat, rep) == s
  {
    ReplaceIsJoinOfSplit(s, pat, rep);
    SplitWithoutSep(s, pat);
  }

  // Facts about splitting on a single character, the form the serializers use.

  /** Splitting on a character gives one more part than there are occurrences of it. */
  lemma {:induction false} SplitCharCount(s: string, c: char)
    ensures |Split(s, [c])| == CountChar(s, c) + 1
    decreases |s|
  {
    if s == [] {
    } else if s[0] == c {
      assert s[..1] == [c];
      SplitCharCount(s[1..], c);
    } else {
      assert s[..1] != [c];
      SplitCharCount(s[1..], c);
    }
  }

  /** No part of a split on a character contains that character. */
  lemma {:induction false} SplitCharPartsAvoidSep(s: string, c: char)
    ensures forall i :: 0 <= i < |Split(s, [c])| ==> c !in Split(s, [c])[i]
    decreases |s|
  {
    if s == [] {
    } else if s[0] == c {
      assert s[..1] == [c];
      SplitCharPartsAvoidSep(s[1..], c);
      assert Split(s, [c]) == [""] + Split(s[1..], [c]);
    } else {
      assert s[..1] != [c];
      SplitCharPartsAvoidSep(s[1..], c);
      var rest := Split(s[1..], [c]);
      assert Split(s, [c]) == [[s[0]] + rest[0]] + rest[1..];
    }
  }

  /**
   * Splitting on a character cuts the text at its first occurrence: the
   * first part is the text before it (or the whole text, when there is
   * none), and the remaining parts are the split of the text after it.
   */
  lemma {:induction false} SplitCharHead(s: string, c: char)
    ensures var parts := Split(s, [c]);
      && |parts[0]| <= |s| && s[..|parts[0]|] == parts[0]
      && (|parts| == 1 ==> parts[0] == s)
      && (|parts| > 1 ==> |parts[0]| < |s| && s[|parts[0]|] == c
                          && parts[1..] == Split(s[|parts[0]| + 1..], [c]))
    decreases |s|
  {
    if s == [] {
    } else if s[0] == c {
      assert s[..1] == [c];
      assert Split(s, [c]) == [""] + Split(s[1..], [c]);
    } else {
      assert s[..1] != [c];
      var rest := Split(s[1..], [c]);
      SplitCharHead(s[1..], c);
      assert Split(s, [c]) == [[s[0]] + rest[0]] + rest[1..];
      if |rest| > 1 {
        assert s[1..][|rest[0]| + 1..] == s[|rest[0]| + 2..];
      }
    }
  }

  /** A segment free of the separator, followed by the separator, is split off whole. */
  lemma {:induction false} SplitCharAfterSegment(p: string, c: char, t: string)
    requires c !in p
    ensures Split(p + [c] + t, [c]) == [p] + Split(t, [c])
    decreases |p|
  {
    var s := p + [c] + t;
    if p == [] {
      assert s[..1] == [c];
      assert s[1..] == t;
    } else {
      assert s[0] == p[0];
      assert s[..1] != [c];
      assert s[1..] == p[1..] + [c] + t;
      SplitCharAfterSegment(p[1..], c, t);
      assert [p[0]] + p[1..] == p;
    }
  }

  /**
   * The split on a character is the only list of separator-free parts that
   * joins back to the text.
   */
  lemma {:induction false} SplitCharUnique(parts: seq<string>, c: char, s: string)
    requires |parts| >= 1
    requires forall i :: 0 <= i < |parts| ==> c !in parts[i]
    requires Join(parts, [c]) == s
    ensures Split(s, [c]) == parts
    decreases |parts|
  {
    if |parts| == 1 {
      assert !Contains(s, [c]) by {
        forall j: nat | j <= |s| ensures !OccursAt(s, [c], j) {
          if j < |s| {
            assert s[j..j + 1] == [s[j]];
            assert s[j] in parts[0];
          }
        }
      }
      SplitWithoutSep(s, [c]);
    } else {
      var t := Join(parts[1..], [c]);
      SplitCharUnique(parts[1..], c, t);
      SplitCharAfterSegment(parts[0], c, t);
      assert parts == [parts[0]] + parts[1..];
    }
  }
}
