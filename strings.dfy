/**
 * The PHP string primitives the generator relies on, over `seq<char>`:
 * `strpos` (as prefix and substring tests), `explode`, `implode`,
 * `strtolower`, `ucfirst`, `ctype_upper` on a first character and
 * `str_replace` with an empty replacement. Case mapping is ASCII only.
 */
module Strings {

  /** `0 === strpos($s, $p)`: `p` is a prefix of `s`. */
  predicate IsPrefix(p: string, s: string)
  {
    |p| <= |s| && s[..|p|] == p
  }

  /** `false !== strpos($s, $sub)`: `sub` occurs somewhere in `s`. */
  predicate Contains(s: string, sub: string)
    decreases |s|
  {
    IsPrefix(sub, s) || (|s| > 0 && Contains(s[1..], sub))
  }

  /** `explode($sep, $s)`: the pieces between non-overlapping occurrences of `sep`, scanned left to right. */
  function Split(s: string, sep: string): (parts: seq<string>)
    requires |sep| > 0
    ensures |parts| >= 1
    decreases |s|
  {
    if |s| < |sep| then [s]
    else if IsPrefix(sep, s) then [""] + Split(s[|sep|..], sep)
    else
      var rest := Split(s[1..], sep);
      [[s[0]] + rest[0]] + rest[1..]
  }

  /** `implode($sep, $parts)`. */
  function Join(parts: seq<string>, sep: string): string
  {
    if |parts| == 0 then ""
    else if |parts| == 1 then parts[0]
    else parts[0] + sep + Join(parts[1..], sep)
  }

  /** `array_merge(...$lists)`: the lists one after another. */
  function Flatten<T>(lists: seq<seq<T>>): seq<T>
  {
    if |lists| == 0 then [] else Flatten(lists[..|lists| - 1]) + lists[|lists| - 1]
  }

  function LowerChar(c: char): char
  {
    if 'A' <= c <= 'Z' then (c as int + 32) as char else c
  }

  function UpperChar(c: char): char
  {
    if 'a' <= c <= 'z' then (c as int - 32) as char else c
  }

  /** `strtolower($s)`. */
  function Lower(s: string): (r: string)
    ensures |r| == |s|
  {
    seq(|s|, i requires 0 <= i < |s| => LowerChar(s[i]))
  }

  /** `ucfirst($s)`. */
  function UcFirst(s: string): (r: string)
    ensures |r| == |s|
  {
    if |s| == 0 then s else [UpperChar(s[0])] + s[1..]
  }

  /** `ctype_upper($s[0])`: the first character is an upper-case letter (an empty string has none). */
  predicate IsUpperStart(s: string)
  {
    |s| > 0 && 'A' <= s[0] <= 'Z'
  }

  /** `str_replace($marker, '', $s)`: every non-overlapping occurrence of `marker`, left to right, removed. */
  function DeleteAll(s: string, marker: string): string
    requires |marker| > 0
    decreases |s|
  {
    if |s| == 0 then ""
    else if IsPrefix(marker, s) then DeleteAll(s[|marker|..], marker)
    else [s[0]] + DeleteAll(s[1..], marker)
  }

  /** Each newline replaced by a space. */
  function NewlinesToSpaces(s: string): (r: string)
    ensures |r| == |s|
  {
    seq(|s|, i requires 0 <= i < |s| => if s[i] == '\n' then ' ' else s[i])
  }

  // ---------------------------------------------------------------- lemmas

  lemma {:induction false} ContainsFits(s: string, sub: string)
    requires Contains(s, sub)
    ensures |sub| <= |s|
    decreases |s|
  {
    if !IsPrefix(sub, s) {
      ContainsFits(s[1..], sub);
    }
  }

  /** An occurrence at any position is found by `Contains`. */
  lemma {:induction false} OccursAt(s: string, sub: string, i: nat)
    requires i + |sub| <= |s| && s[i..i + |sub|] == sub
    ensures Contains(s, sub)
    decreases i
  {
    if i > 0 {
      assert s[1..][i - 1..i - 1 + |sub|] == sub;
      OccursAt(s[1..], sub, i - 1);
    }
  }

  /** A string containing `x` contains every piece of `x`. */
  lemma {:induction false} ContainsPiece(s: string, x: string, i: nat, y: string)
    requires Contains(s, x)
    requires i + |y| <= |x| && x[i..i + |y|] == y
    ensures Contains(s, y)
    decreases |s|
  {
    if IsPrefix(x, s) {
      assert s[i..i + |y|] == y;
      OccursAt(s, y, i);
    } else {
      ContainsPiece(s[1..], x, i, y);
    }
  }

  /** Every character of a contained needle is a character of the haystack. */
  lemma {:induction false} ContainsChars(s: string, sub: string)
    requires Contains(s, sub)
    ensures forall ch :: ch in sub ==> ch in s
    decreases |s|
  {
    if IsPrefix(sub, s) {
      assert forall ch :: ch in s[..|sub|] ==> ch in s;
    } else {
      ContainsChars(s[1..], sub);
      assert forall ch :: ch in s[1..] ==> ch in s;
    }
  }

  /** A needle with a character the haystack lacks cannot occur in it. */
  lemma MissingChar(s: string, sub: string, c: char)
    requires c in sub && c !in s
    ensures !Contains(s, sub)
  {
    if Contains(s, sub) {
      ContainsChars(s, sub);
    }
  }

  /** No occurrence can start inside a lead `a` that lacks the needle's first character. */
  lemma {:induction false} SkipLead(a: string, b: string, sub: string)
    requires |sub| > 0 && sub[0] !in a
    ensures Contains(a + b, sub) <==> Contains(b, sub)
    decreases |a|
  {
    if |a| > 0 {
      assert (a + b)[0] == a[0];
      assert !IsPrefix(sub, a + b);
      assert (a + b)[1..] == a[1..] + b;
      assert forall ch :: ch in a[1..] ==> ch in a;
      assert Contains(a + b, sub) == Contains(a[1..] + b, sub);
      SkipLead(a[1..], b, sub);
    } else {
      assert a + b == b;
    }
  }

  /** `explode` yields more than one piece exactly when the separator occurs. */
  lemma {:induction false} SplitMany(s: string, sep: string)
    requires |sep| > 0
    ensures |Split(s, sep)| >= 2 <==> Contains(s, sep)
    decreases |s|
  {
    if |s| < |sep| {
      if Contains(s, sep) {
        ContainsFits(s, sep);
      }
    } else if !IsPrefix(sep, s) {
      SplitMany(s[1..], sep);
    }
  }

  /** No piece is longer than the input, and when there are several each is strictly shorter. */
  lemma {:induction false} SplitShorter(s: string, sep: string)
    requires |sep| > 0
    ensures forall p :: p in Split(s, sep) ==> |p| <= |s|
    ensures |Split(s, sep)| >= 2 ==> forall p :: p in Split(s, sep) ==> |p| < |s|
    decreases |s|
  {
    if |s| < |sep| {
    } else if IsPrefix(sep, s) {
      SplitShorter(s[|sep|..], sep);
    } else {
      SplitShorter(s[1..], sep);
      var rest := Split(s[1..], sep);
      assert Split(s, sep) == [[s[0]] + rest[0]] + rest[1..];
      assert forall p :: p in rest[1..] ==> p in rest;
    }
  }

  /** Every character of a piece comes from the input. */
  lemma {:induction false} SplitChars(s: string, sep: string)
    requires |sep| > 0
    ensures forall p, ch :: p in Split(s, sep) && ch in p ==> ch in s
    decreases |s|
  {
    if |s| < |sep| {
    } else if IsPrefix(sep, s) {
      SplitChars(s[|sep|..], sep);
      assert forall ch :: ch in s[|sep|..] ==> ch in s;
    } else {
      SplitChars(s[1..], sep);
      var rest := Split(s[1..], sep);
      assert Split(s, sep) == [[s[0]] + rest[0]] + rest[1..];
      assert forall ch :: ch in s[1..] ==> ch in s;
      assert forall p :: p in rest[1..] ==> p in rest;
    }
  }

  /** A needle found after the first `k` characters is found in the whole string. */
  lemma {:induction false} ContainsInSuffix(s: string, k: nat, sub: string)
    requires k <= |s| && Contains(s[k..], sub)
    ensures Contains(s, sub)
    decreases k
  {
    if k > 0 {
      assert s[1..][k - 1..] == s[k..];
      ContainsInSuffix(s[1..], k - 1, sub);
    }
  }

  /** A needle found in a prefix of a string is found in the string. */
  lemma {:induction false} ContainsInPrefix(p: string, s: string, sub: string)
    requires IsPrefix(p, s) && Contains(p, sub)
    ensures Contains(s, sub)
    decreases |p|
  {
    if IsPrefix(sub, p) {
      assert s[..|sub|] == p[..|sub|];
    } else {
      assert s[1..][..|p| - 1] == p[1..];
      ContainsInPrefix(p[1..], s[1..], sub);
    }
  }

  /** The first piece of `explode` is a prefix of the input. */
  lemma {:induction false} SplitFirstIsPrefix(s: string, sep: string)
    requires |sep| > 0
    ensures IsPrefix(Split(s, sep)[0], s)
    decreases |s|
  {
    if |s| >= |sep| && !IsPrefix(sep, s) {
      SplitFirstIsPrefix(s[1..], sep);
      var first := Split(s[1..], sep)[0];
      assert s[..1 + |first|] == [s[0]] + s[1..][..|first|];
    }
  }

  /** Whatever a piece of `explode` contains, the input contains. */
  lemma {:induction false} SplitPieceInside(s: string, sep: string, p: string, sub: string)
    requires |sep| > 0 && p in Split(s, sep) && Contains(p, sub)
    ensures Contains(s, sub)
    decreases |s|
  {
    if |s| < |sep| {
    } else if IsPrefix(sep, s) {
      if p == "" {
        assert IsPrefix(sub, s);
      } else {
        SplitPieceInside(s[|sep|..], sep, p, sub);
        ContainsInSuffix(s, |sep|, sub);
      }
    } else {
      var rest := Split(s[1..], sep);
      assert Split(s, sep) == [[s[0]] + rest[0]] + rest[1..];
      if p == [s[0]] + rest[0] {
        SplitFirstIsPrefix(s[1..], sep);
        assert s[..|p|] == [s[0]] + s[1..][..|rest[0]|];
        ContainsInPrefix(p, s, sub);
      } else {
        assert p in rest;
        SplitPieceInside(s[1..], sep, p, sub);
      }
    }
  }

  /** With a one-character separator, no piece contains the separator character. */
  lemma {:induction false} SplitCharFree(s: string, c: char)
    ensures forall p :: p in Split(s, [c]) ==> c !in p
    decreases |s|
  {
    if |s| < 1 {
    } else if IsPrefix([c], s) {
      SplitCharFree(s[1..], c);
    } else {
      SplitCharFree(s[1..], c);
      var rest := Split(s[1..], [c]);
      assert Split(s, [c]) == [[s[0]] + rest[0]] + rest[1..];
      assert s[0] != c by { assert s[..1] == [s[0]]; }
      assert forall p :: p in rest[1..] ==> p in rest;
    }
  }

  /** Without an occurrence of the separator, `explode` returns the whole string. */
  lemma SplitAlone(s: string, sep: string)
    requires |sep| > 0 && !Contains(s, sep)
    ensures Split(s, sep) == [s]
  {
    SplitMany(s, sep);
    JoinSplit(s, sep);
  }

  /** A leading separator yields an empty first piece. */
  lemma SplitAtSeparator(sep: string, b: string)
    requires |sep| > 0
    ensures Split(sep + b, sep) == [""] + Split(b, sep)
  {
    assert (sep + b)[..|sep|] == sep;
    assert (sep + b)[|sep|..] == b;
  }

  /** A character where no occurrence starts joins the first piece of the rest. */
  lemma SplitCons(c: char, s: string, sep: string)
    requires |sep| > 0 && |s| + 1 >= |sep| && !IsPrefix(sep, [c] + s)
    ensures Split([c] + s, sep) == [[c] + Split(s, sep)[0]] + Split(s, sep)[1..]
  {
    assert ([c] + s)[0] == c;
    assert ([c] + s)[1..] == s;
  }

  /** A lead without the separator's first character joins the first piece of the rest. */
  lemma {:induction false} SplitLead(a: string, b: string, sep: string)
    requires |sep| > 0 && sep[0] !in a
    ensures Split(a + b, sep) == [a + Split(b, sep)[0]] + Split(b, sep)[1..]
    decreases |a|
  {
    if |a| == 0 {
      assert a + b == b;
      var parts := Split(b, sep);
      assert a + parts[0] == parts[0];
      assert parts == [parts[0]] + parts[1..];
    } else {
      var s := a + b;
      assert s[0] == a[0] && a[0] in a;
      assert s[1..] == a[1..] + b;
      assert forall ch :: ch in a[1..] ==> ch in a;
      SplitLead(a[1..], b, sep);
      if |s| < |sep| {
        assert !Contains(b, sep) by {
          if Contains(b, sep) {
            ContainsFits(b, sep);
          }
        }
        SplitAlone(b, sep);
      } else {
        assert !IsPrefix(sep, s);
        assert a + Split(b, sep)[0] == [a[0]] + (a[1..] + Split(b, sep)[0]);
      }
    }
  }

  /** `implode($sep, explode($sep, $s)) === $s`. */
  lemma {:induction false} JoinSplit(s: string, sep: string)
    requires |sep| > 0
    ensures Join(Split(s, sep), sep) == s
    decreases |s|
  {
    if |s| < |sep| {
    } else if IsPrefix(sep, s) {
      JoinSplit(s[|sep|..], sep);
      JoinSplitAtSeparator(s, sep);
    } else {
      JoinSplit(s[1..], sep);
      JoinSplitStep(s, sep, Split(s[1..], sep));
    }
  }

  lemma JoinSplitAtSeparator(s: string, sep: string)
    requires |sep| > 0 && |s| >= |sep| && IsPrefix(sep, s)
    requires Join(Split(s[|sep|..], sep), sep) == s[|sep|..]
    ensures Join(Split(s, sep), sep) == s
  {
    assert s == sep + s[|sep|..];
  }

  lemma JoinSplitStep(s: string, sep: string, rest: seq<string>)
    requires |sep| > 0 && |s| >= |sep| && !IsPrefix(sep, s)
    requires rest == Split(s[1..], sep) && Join(rest, sep) == s[1..]
    ensures Join(Split(s, sep), sep) == s
  {
    assert Split(s, sep) == [[s[0]] + rest[0]] + rest[1..];
    JoinConsHead(s[0], rest, sep);
    assert s == [s[0]] + s[1..];
  }

  /** Gluing a character onto the first piece glues it onto the joined string. */
  lemma JoinConsHead(c: char, rest: seq<string>, sep: string)
    requires |rest| >= 1
    ensures Join([[c] + rest[0]] + rest[1..], sep) == [c] + Join(rest, sep)
  {
    var parts := [[c] + rest[0]] + rest[1..];
    if |rest| > 1 {
      assert parts[1..] == rest[1..];
      assert [c] + rest[0] + sep + Join(rest[1..], sep) == [c] + (rest[0] + sep + Join(rest[1..], sep));
    }
  }

  /** Joining two non-empty lists is joining each and putting one separator between them. */
  lemma {:induction false} JoinAppend(a: seq<string>, b: seq<string>, sep: string)
    requires |a| > 0 && |b| > 0
    ensures Join(a + b, sep) == Join(a, sep) + sep + Join(b, sep)
    decreases |a|
  {
    if |a| == 1 {
      assert (a + b)[1..] == b;
    } else {
      assert (a + b)[1..] == a[1..] + b;
      JoinAppend(a[1..], b, sep);
    }
  }

  lemma NewlinesToSpacesKeeps(s: string)
    requires '\n' !in s
    ensures NewlinesToSpaces(s) == s
  {
    assert forall i :: 0 <= i < |s| ==> s[i] in s;
  }

  lemma NewlinesToSpacesAppend(a: string, b: string)
    ensures NewlinesToSpaces(a + b) == NewlinesToSpaces(a) + NewlinesToSpaces(b)
  {
  }

  /** Replacing newlines in a newline-joined list of newline-free pieces is joining them with spaces. */
  lemma {:induction false} NewlinesToSpacesJoin(parts: seq<string>)
    requires forall p :: p in parts ==> '\n' !in p
    ensures NewlinesToSpaces(Join(parts, "\n")) == Join(parts, " ")
    decreases |parts|
  {
    if |parts| == 0 {
    } else if |parts| == 1 {
      assert parts[0] in parts;
      NewlinesToSpacesKeeps(parts[0]);
    } else {
      assert parts[0] in parts;
      NewlinesToSpacesKeeps(parts[0]);
      assert forall p :: p in parts[1..] ==> p in parts;
      NewlinesToSpacesJoin(parts[1..]);
      NewlinesToSpacesAppend(parts[0] + "\n", Join(parts[1..], "\n"));
      NewlinesToSpacesAppend(parts[0], "\n");
    }
  }

  /** Deleting markers skips over a lead without the marker's first character unchanged. */
  lemma {:induction false} DeleteAllKeepsLead(x: string, y: string, marker: string)
    requires |marker| > 0 && marker[0] !in x
    ensures DeleteAll(x + y, marker) == x + DeleteAll(y, marker)
    decreases |x|
  {
    if |x| > 0 {
      assert (x + y)[0] == x[0];
      assert !IsPrefix(marker, x + y);
      assert (x + y)[1..] == x[1..] + y;
      assert forall ch :: ch in x[1..] ==> ch in x;
      assert DeleteAll(x + y, marker) == [x[0]] + DeleteAll(x[1..] + y, marker);
      DeleteAllKeepsLead(x[1..], y, marker);
      assert x == [x[0]] + x[1..];
    } else {
      assert x + y == y;
    }
  }

  /** Deleting markers removes a leading marker. */
  lemma DeleteAllDropsMarker(y: string, marker: string)
    requires |marker| > 0
    ensures DeleteAll(marker + y, marker) == DeleteAll(y, marker)
  {
    assert (marker + y)[..|marker|] == marker;
    assert (marker + y)[|marker|..] == y;
  }

  /** Flattening distributes over appending one more list. */
  lemma FlattenSnoc<T>(lists: seq<seq<T>>, last: seq<T>)
    ensures Flatten(lists + [last]) == Flatten(lists) + last
  {
    assert (lists + [last])[..|lists|] == lists;
  }
}
