/**
 * The three `java.lang.String` operations the core relies on, as the JDK
 * defines them for the arguments the core passes:
 *  - `toLowerCase()`, restricted to ASCII letters;
 *  - `replace(target, replacement)` for a non-empty literal target: one
 *    left-to-right pass replacing non-overlapping occurrences;
 *  - `split(delimiter)` with the delimiter read literally: the pieces between
 *    non-overlapping occurrences, trailing empty pieces removed, and the
 *    whole string when the delimiter does not occur.
 */
module JavaStrings {

  function LowerChar(c: char): char {
    if 'A' <= c <= 'Z' then (c as int - 'A' as int + 'a' as int) as char else c
  }

  predicate IsUpper(c: char) {
    'A' <= c <= 'Z'
  }

  /** `String.toLowerCase` on ASCII: every letter lowered, nothing else touched. */
  function ToLowerCase(s: string): (r: string)
    ensures |r| == |s|
    ensures forall i :: 0 <= i < |s| ==> !IsUpper(r[i])
    ensures forall i :: 0 <= i < |s| && !IsUpper(s[i]) ==> r[i] == s[i]
    ensures forall i :: 0 <= i < |s| && IsUpper(s[i]) ==> r[i] as int - s[i] as int == 'a' as int - 'A' as int
  {
    seq(|s|, i requires 0 <= i < |s| => LowerChar(s[i]))
  }

  lemma LowerCaseIdempotent(s: string)
    ensures ToLowerCase(ToLowerCase(s)) == ToLowerCase(s)
  {
  }

  /**
   * `String.replace(target, replacement)`: scan from the left; an occurrence
   * of `target` is replaced and the scan resumes after it, so occurrences
   * never overlap and text produced by a replacement is never re-examined.
   */
  function Replace(s: string, target: string, replacement: string): string
    requires |target| > 0
    decreases |s|
  {
    if |s| < |target| then s
    else if s[..|target|] == target then replacement + Replace(s[|target|..], target, replacement)
    else [s[0]] + Replace(s[1..], target, replacement)
  }

  /**
   * The pieces of `s` between the non-overlapping, leftmost-first
   * occurrences of `delimiter`, empty pieces included: always one more piece
   * than there are occurrences.
   */
  function Pieces(s: string, delimiter: string): (r: seq<string>)
    requires |delimiter| > 0
    ensures |r| >= 1
    decreases |s|
  {
    if |s| < |delimiter| then [s]
    else if s[..|delimiter|] == delimiter then [""] + Pieces(s[|delimiter|..], delimiter)
    else
      var rest := Pieces(s[1..], delimiter);
      [[s[0]] + rest[0]] + rest[1..]
  }

  /** The pieces glued back together with `separator` between neighbours. */
  function Join(pieces: seq<string>, separator: string): string
    requires |pieces| >= 1
  {
    if |pieces| == 1 then pieces[0] else pieces[0] + separator + Join(pieces[1..], separator)
  }

  /** Joining the pieces with the delimiter gives back the string. */
  lemma {:induction false} JoinPieces(s: string, delimiter: string)
    requires |delimiter| > 0
    ensures Join(Pieces(s, delimiter), delimiter) == s
    decreases |s|
  {
    var d := |delimiter|;
    if |s| < d {
    } else if s[..d] == delimiter {
      var tail := Pieces(s[d..], delimiter);
      assert Pieces(s, delimiter) == [""] + tail;
      assert ([""] + tail)[1..] == tail;
      assert Join([""] + tail, delimiter) == "" + delimiter + Join(tail, delimiter);
      JoinPieces(s[d..], delimiter);
      assert s == s[..d] + s[d..];
    } else {
      var rest := Pieces(s[1..], delimiter);
      var first := [s[0]] + rest[0];
      assert Pieces(s, delimiter) == [first] + rest[1..];
      JoinPieces(s[1..], delimiter);
      assert s == [s[0]] + s[1..];
      if |rest| == 1 {
        assert Join([first] + rest[1..], delimiter) == first;
      } else {
        assert ([first] + rest[1..])[1..] == rest[1..];
        assert Join([first] + rest[1..], delimiter) == first + delimiter + Join(rest[1..], delimiter);
        assert Join(rest, delimiter) == rest[0] + delimiter + Join(rest[1..], delimiter);
      }
    }
  }

  /**
   * Replacing is joining the pieces with the replacement: what `replace`
   * removes is exactly what `split` would split on.
   */
  lemma {:induction false} ReplaceJoinsPieces(s: string, target: string, replacement: string)
    requires |target| > 0
    ensures Replace(s, target, replacement) == Join(Pieces(s, target), replacement)
    decreases |s|
  {
    if |s| < |target| {
    } else if s[..|target|] == target {
      ReplaceJoinsPieces(s[|target|..], target, replacement);
    } else {
      ReplaceJoinsPieces(s[1..], target, replacement);
    }
  }

  /** One step of `Replace` at an occurrence of the target. */
  lemma ReplaceHit(s: string, target: string, replacement: string, rest: string)
    requires |target| > 0 && |s| >= |target| && s[..|target|] == target && rest == s[|target|..]
    ensures Replace(s, target, replacement) == replacement + Replace(rest, target, replacement)
  {
  }

  /** One step of `Replace` where the target does not start: it differs at `i`. */
  lemma ReplaceSkip(s: string, target: string, replacement: string, i: nat, rest: string)
    requires |target| > 0 && |s| >= |target| && i < |target| && s[i] != target[i] && rest == s[1..]
    ensures Replace(s, target, replacement) == [s[0]] + Replace(rest, target, replacement)
  {
    assert s[..|target|][i] != target[i];
  }

  /** Deleting a single character leaves no occurrence of it. */
  lemma {:induction false} DeleteCharRemovesAll(s: string, c: char)
    ensures forall i :: 0 <= i < |Replace(s, [c], "")| ==> Replace(s, [c], "")[i] != c
    decreases |s|
  {
    if |s| >= 1 {
      DeleteCharRemovesAll(s[1..], c);
    }
  }

  /** Deleting a character that does not occur changes nothing. */
  lemma {:induction false} DeleteAbsentChar(s: string, c: char)
    requires forall i :: 0 <= i < |s| ==> s[i] != c
    ensures Replace(s, [c], "") == s
    decreases |s|
  {
    if |s| >= 1 {
      DeleteAbsentChar(s[1..], c);
      assert s == [s[0]] + s[1..];
    }
  }

  /** Deleting characters never introduces an upper-case letter. */
  lemma {:induction false} DeleteCharKeepsLower(s: string, c: char)
    requires forall i :: 0 <= i < |s| ==> !IsUpper(s[i])
    ensures forall i :: 0 <= i < |Replace(s, [c], "")| ==> !IsUpper(Replace(s, [c], "")[i])
    decreases |s|
  {
    if |s| >= 1 {
      DeleteCharKeepsLower(s[1..], c);
    }
  }

  /** One step of `Pieces` at an occurrence of the delimiter. */
  lemma PiecesHit(s: string, delimiter: string, rest: string)
    requires |delimiter| > 0 && |s| >= |delimiter| && s[..|delimiter|] == delimiter && rest == s[|delimiter|..]
    ensures Pieces(s, delimiter) == [""] + Pieces(rest, delimiter)
  {
  }

  /** One step of `Pieces` where the delimiter does not start: it differs at `i`. */
  lemma PiecesSkip(s: string, delimiter: string, i: nat, rest: string)
    requires |delimiter| > 0 && |s| >= |delimiter| && i < |delimiter| && s[i] != delimiter[i] && rest == s[1..]
    ensures Pieces(s, delimiter) == [[s[0]] + Pieces(rest, delimiter)[0]] + Pieces(rest, delimiter)[1..]
  {
    assert s[..|delimiter|][i] != delimiter[i];
  }

  /** `delimiter` occurs in `s` starting at index `i`. */
  predicate OccursAt(s: string, delimiter: string, i: int) {
    0 <= i && i + |delimiter| <= |s| && s[i..i + |delimiter|] == delimiter
  }

  ghost predicate Occurs(s: string, delimiter: string) {
    exists i :: OccursAt(s, delimiter, i)
  }

  /** There is a single piece exactly when the delimiter does not occur. */
  lemma {:induction false} SinglePieceIffAbsent(s: string, delimiter: string)
    requires |delimiter| > 0
    ensures |Pieces(s, delimiter)| == 1 <==> !Occurs(s, delimiter)
    decreases |s|
  {
    if |s| < |delimiter| {
    } else if s[..|delimiter|] == delimiter {
      assert OccursAt(s, delimiter, 0);
    } else {
      SinglePieceIffAbsent(s[1..], delimiter);
      if Occurs(s, delimiter) {
        var i :| OccursAt(s, delimiter, i);
        assert i != 0;
        assert s[1..][i - 1..i - 1 + |delimiter|] == s[i..i + |delimiter|];
        assert OccursAt(s[1..], delimiter, i - 1);
      }
      if Occurs(s[1..], delimiter) {
        var i :| OccursAt(s[1..], delimiter, i);
        assert s[i + 1..i + 1 + |delimiter|] == s[1..][i..i + |delimiter|];
        assert OccursAt(s, delimiter, i + 1);
      }
    }
  }

  /** The longest prefix of `pieces` that does not end with an empty piece. */
  function DropTrailingEmpty(pieces: seq<string>): (r: seq<string>)
    ensures |r| <= |pieces| && r == pieces[..|r|]
    ensures forall i :: |r| <= i < |pieces| ==> pieces[i] == ""
    ensures |r| == 0 || r[|r| - 1] != ""
  {
    if |pieces| == 0 then []
    else if pieces[|pieces| - 1] == "" then DropTrailingEmpty(pieces[..|pieces| - 1])
    else pieces
  }

  /**
   * `String.split(delimiter)` with a literal delimiter. An empty delimiter
   * splits a non-empty string into its characters.
   */
  function Split(s: string, delimiter: string): seq<string>
  {
    if delimiter == "" then
      if s == "" then [""] else seq(|s|, i requires 0 <= i < |s| => [s[i]])
    else
      var pieces := Pieces(s, delimiter);
      if |pieces| == 1 then pieces else DropTrailingEmpty(pieces)
  }

  /**
   * What `split` promises for a non-empty delimiter: when the delimiter
   * occurs, the result is the pieces with the trailing empty ones dropped
   * (possibly none left); when it does not, it is the string itself.
   */
  lemma SplitSpec(s: string, delimiter: string)
    requires |delimiter| > 0
    ensures var r := Split(s, delimiter);
            var pieces := Pieces(s, delimiter);
            && |r| <= |pieces| && r == pieces[..|r|]
            && (forall i :: |r| <= i < |pieces| ==> pieces[i] == "")
            && (|pieces| == 1 ==> r == [s])
            && (|pieces| > 1 ==> |r| == 0 || r[|r| - 1] != "")
            && (!Occurs(s, delimiter) ==> r == [s])
            && (Occurs(s, delimiter) ==> |r| == 0 || r[|r| - 1] != "")
  {
    SinglePieceIffAbsent(s, delimiter);
    var pieces := Pieces(s, delimiter);
    if |pieces| == 1 {
      JoinPieces(s, delimiter);
    }
  }

  /** Trailing empty fields are dropped; leading and inner ones are kept. */
  lemma SplitDropsOnlyTrailingEmpty()
    ensures Split("a,,", ",") == ["a"]
    ensures Split(",a", ",") == ["", "a"]
  {
    assert Pieces("", ",") == [""];
    PiecesHit(",", ",", "");
    assert Pieces(",", ",") == ["", ""];
    PiecesHit(",,", ",", ",");
    assert Pieces(",,", ",") == ["", "", ""];
    PiecesSkip("a,,", ",", 0, ",,");
    assert ['a'] + "" == "a";
    assert ["", "", ""][1..] == ["", ""];
    assert Pieces("a,,", ",") == ["a", "", ""];
    assert DropTrailingEmpty(["a", "", ""]) == ["a"] by {
      assert ["a", "", ""][..2] == ["a", ""];
      assert ["a", ""][..1] == ["a"];
    }
    PiecesSkip("a", ",", 0, "");
    assert Pieces("a", ",") == ["a"];
    PiecesHit(",a", ",", "a");
    assert Pieces(",a", ",") == ["", "a"];
  }

  /** Splitting and re-joining loses at most trailing delimiters. */
  lemma SplitRejoins(s: string, delimiter: string)
    requires |delimiter| > 0
    requires |Split(s, delimiter)| > 0
    ensures exists k: nat :: Join(Split(s, delimiter), delimiter) + Repeat(delimiter, k) == s
  {
    var pieces := Pieces(s, delimiter);
    var r := Split(s, delimiter);
    SplitSpec(s, delimiter);
    JoinPieces(s, delimiter);
    var k := |pieces| - |r|;
    JoinEmptyTail(pieces, |r|, delimiter);
    assert Join(r, delimiter) + Repeat(delimiter, k) == s;
  }

  /** `k` copies of `s`, one after the other. */
  function Repeat(s: string, k: nat): (r: string)
    ensures |r| == k * |s|
  {
    if k == 0 then "" else s + Repeat(s, k - 1)
  }

  /** Joining pieces whose tail from `n` on is empty. */
  lemma {:induction false} JoinEmptyTail(pieces: seq<string>, n: nat, separator: string)
    requires 1 <= n <= |pieces|
    requires forall i :: n <= i < |pieces| ==> pieces[i] == ""
    ensures Join(pieces, separator) == Join(pieces[..n], separator) + Repeat(separator, |pieces| - n)
    decreases |pieces|
  {
    if n == |pieces| {
      assert pieces[..n] == pieces;
    } else if n == 1 {
      JoinAllEmpty(pieces[1..], separator);
      assert pieces[..n] == [pieces[0]];
    } else {
      JoinEmptyTail(pieces[1..], n - 1, separator);
      assert pieces[1..][..n - 1] == pieces[..n][1..];
    }
  }

  /** Joining only empty pieces gives one separator fewer than pieces. */
  lemma {:induction false} JoinAllEmpty(pieces: seq<string>, separator: string)
    requires forall i :: 0 <= i < |pieces| ==> pieces[i] == ""
    ensures |pieces| >= 1 ==> separator + Join(pieces, separator) == Repeat(separator, |pieces|)
    ensures |pieces| == 0 ==> Repeat(separator, 0) == ""
    decreases |pieces|
  {
    if |pieces| > 1 {
      JoinAllEmpty(pieces[1..], separator);
    }
  }
}
