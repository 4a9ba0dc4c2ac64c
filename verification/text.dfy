/** JavaScript's `String.prototype.split` with a non-empty separator:
    occurrences are found from left to right and do not overlap. */
module Text {

  /** `sep` occurs in `s` starting at index `i`. */
  predicate OccursAt(s: string, sep: string, i: int)
  {
    0 <= i && i + |sep| <= |s| && s[i..i + |sep|] == sep
  }

  predicate Contains(s: string, sep: string)
  {
    exists i | 0 <= i <= |s| :: OccursAt(s, sep, i)
  }

  predicate EndsWith(s: string, suffix: string)
  {
    |suffix| <= |s| && s[|s| - |suffix|..] == suffix
  }

  /** `Array.prototype.join`: the inverse of `Split`. */
  function Join(parts: seq<string>, sep: string): string
    decreases |parts|
  {
    if |parts| == 0 then ""
    else if |parts| == 1 then parts[0]
    else parts[0] + sep + Join(parts[1..], sep)
  }

  lemma JoinPrepend(c: char, rest: seq<string>, sep: string)
    requires |rest| >= 1
    ensures Join([[c] + rest[0]] + rest[1..], sep) == [c] + Join(rest, sep)
  {
    var q := [[c] + rest[0]] + rest[1..];
    assert q[0] == [c] + rest[0];
    assert q[1..] == rest[1..];
  }

  /** `s.split(sep)`. The `Join` round trip together with
      `SplitPiecesFree` fixes the pieces only for separators that cannot
      overlap themselves; for one that can ("aa" in "aaa") the leftmost
      matching is stated by the body alone. "Bearer " and "/", the two
      separators the adapter uses, do not overlap themselves. */
  function Split(s: string, sep: string): (parts: seq<string>)
    requires |sep| > 0
    ensures |parts| >= 1
    ensures Join(parts, sep) == s
    decreases |s|
  {
    if |s| < |sep| then [s]
    else if s[..|sep|] == sep then
      var rest := Split(s[|sep|..], sep);
      assert ([""] + rest)[1..] == rest;
      assert s == sep + s[|sep|..];
      [""] + rest
    else
      var rest := Split(s[1..], sep);
      JoinPrepend(s[0], rest, sep);
      assert s == [s[0]] + s[1..];
      [[s[0]] + rest[0]] + rest[1..]
  }

  /** `s.split(sep).pop()`: the last piece of the split, which is the text
      after the last separator, or the whole string when there is none. */
  function LastSegment(s: string, sep: string): (last: string)
    requires |sep| > 0
    ensures !Contains(last, sep)
    ensures EndsWith(s, last)
    ensures Contains(s, sep) ==> EndsWith(s, sep + last)
    ensures !Contains(s, sep) ==> last == s
  {
    LastSegmentIsTail(s, sep);
    LastPiece(s, sep)
  }

  /** The last element of `s.split(sep)`. */
  function LastPiece(s: string, sep: string): string
    requires |sep| > 0
  {
    var parts := Split(s, sep);
    parts[|parts| - 1]
  }

  lemma OccursAfterHead(c: char, x: string, sep: string, i: int)
    requires OccursAt([c] + x, sep, i) && i > 0
    ensures OccursAt(x, sep, i - 1)
  {
    assert ([c] + x)[i..i + |sep|] == x[i - 1..i - 1 + |sep|];
  }

  lemma OccursInTail(s: string, sep: string, i: int)
    requires |s| >= 1 && OccursAt(s[1..], sep, i)
    ensures OccursAt(s, sep, i + 1)
  {
    assert s[1..][i..i + |sep|] == s[i + 1..i + 1 + |sep|];
  }

  lemma JoinHead(parts: seq<string>, sep: string)
    requires |parts| >= 1
    ensures parts[0] <= Join(parts, sep)
  {
  }

  /** No piece of a split contains the separator. */
  lemma {:induction false} SplitPiecesFree(s: string, sep: string)
    requires |sep| > 0
    ensures forall k :: 0 <= k < |Split(s, sep)| ==> !Contains(Split(s, sep)[k], sep)
    decreases |s|
  {
    var parts := Split(s, sep);
    if |s| < |sep| {
      assert parts == [s];
      forall i | OccursAt(s, sep, i) ensures false {}
    } else if s[..|sep|] == sep {
      var rest := Split(s[|sep|..], sep);
      SplitPiecesFree(s[|sep|..], sep);
      assert parts == [""] + rest;
      forall k | 0 <= k < |parts| ensures !Contains(parts[k], sep) {
        if k == 0 {
          forall i | OccursAt(parts[0], sep, i) ensures false {}
        } else {
          assert parts[k] == rest[k - 1];
        }
      }
    } else {
      var rest := Split(s[1..], sep);
      SplitPiecesFree(s[1..], sep);
      var head := [s[0]] + rest[0];
      assert parts == [head] + rest[1..];
      JoinHead(rest, sep);
      assert head <= s;
      forall k | 0 <= k < |parts| ensures !Contains(parts[k], sep) {
        if k == 0 {
          forall i | OccursAt(head, sep, i) ensures false {
            if i > 0 {
              OccursAfterHead(s[0], rest[0], sep, i);
            }
          }
        } else {
          assert parts[k] == rest[k];
        }
      }
    }
  }

  /** A string without the separator splits into itself alone. */
  lemma {:induction false} SplitWithoutSeparator(s: string, sep: string)
    requires |sep| > 0
    requires !Contains(s, sep)
    ensures Split(s, sep) == [s]
    decreases |s|
  {
    if |s| < |sep| {
    } else if s[..|sep|] == sep {
      assert OccursAt(s, sep, 0);
    } else {
      forall i | OccursAt(s[1..], sep, i) ensures false {
        OccursInTail(s, sep, i);
      }
      SplitWithoutSeparator(s[1..], sep);
      assert s == [s[0]] + s[1..];
    }
  }

  /** A string that starts with the separator splits into an empty piece
      followed by the split of the rest. */
  lemma SplitAfterSeparator(sep: string, t: string)
    requires |sep| > 0
    ensures Split(sep + t, sep) == [""] + Split(t, sep)
  {
    assert (sep + t)[..|sep|] == sep;
    assert (sep + t)[|sep|..] == t;
  }

  /** With a one-character separator, the text before its first occurrence
      is the first piece. */
  lemma {:induction false} SplitAtChar(a: string, c: char, b: string)
    requires c !in a
    ensures Split(a + [c] + b, [c]) == [a] + Split(b, [c])
    decreases |a|
  {
    var s := a + [c] + b;
    if |a| == 0 {
      assert s == [c] + b;
      SplitAfterSeparator([c], b);
    } else {
      assert s[..1] == [a[0]] && a[0] != c;
      assert s[1..] == a[1..] + [c] + b;
      SplitAtChar(a[1..], c, b);
      assert a == [a[0]] + a[1..];
    }
  }

  /** For a one-character separator, `Contains` is membership. */
  lemma NoCharContained(s: string, c: char)
    requires !Contains(s, [c])
    ensures c !in s
  {
    if c in s {
      var i :| 0 <= i < |s| && s[i] == c;
      assert OccursAt(s, [c], i);
    }
  }

  lemma SplitOnePiece(s: string, c: char)
    requires |Split(s, [c])| == 1
    ensures c !in s
  {
    SplitPiecesFree(s, [c]);
    assert Split(s, [c]) == [s];
    NoCharContained(s, c);
  }

  lemma CharAt(s: string, c: char, i: int)
    requires OccursAt(s, [c], i)
    ensures c in s
  {
    assert s[i] == s[i..i + 1][0];
  }

  lemma CharFree(s: string, c: char)
    requires c !in s
    ensures !Contains(s, [c])
  {
    if Contains(s, [c]) {
      var i :| 0 <= i <= |s| && OccursAt(s, [c], i);
      CharAt(s, c, i);
      assert false;
    }
  }

  /** With a one-character separator, a string that continues with nothing
      or with the separator after a separator-free head has that head as its
      first piece. */
  lemma FirstPiece(head: string, c: char, rest: string)
    requires c !in head
    requires rest == "" || rest[0] == c
    ensures Split(head + rest, [c])[0] == head
  {
    if rest == "" {
      CharFree(head, c);
      SplitWithoutSeparator(head, [c]);
      assert head + rest == head;
    } else {
      var after := rest[1..];
      assert rest == [c] + after;
      assert head + rest == head + [c] + after;
      SplitAtChar(head, c, after);
    }
  }

  lemma {:induction false} JoinLast(parts: seq<string>, sep: string)
    requires |parts| >= 2
    ensures Join(parts, sep) == Join(parts[..|parts| - 1], sep) + sep + parts[|parts| - 1]
    decreases |parts|
  {
    var n := |parts|;
    if n == 2 {
      assert parts[1..] == [parts[1]];
      assert parts[..1] == [parts[0]];
    } else {
      JoinLast(parts[1..], sep);
      assert parts[1..][..n - 2] == parts[..n - 1][1..];
      assert parts[1..][n - 2] == parts[n - 1];
    }
  }

  /** The last piece of a split is the text after the last separator: it
      ends the string, it holds no separator, a separator precedes it when
      the string contains one, and otherwise it is the whole string. */
  lemma {:induction false} LastSegmentIsTail(s: string, sep: string)
    requires |sep| > 0
    ensures !Contains(LastPiece(s, sep), sep)
    ensures EndsWith(s, LastPiece(s, sep))
    ensures Contains(s, sep) ==> EndsWith(s, sep + LastPiece(s, sep))
    ensures !Contains(s, sep) ==> LastPiece(s, sep) == s
  {
    var parts := Split(s, sep);
    var n := |parts|;
    var last := parts[n - 1];
    SplitPiecesFree(s, sep);
    if n == 1 {
      assert s == last;
    } else {
      JoinLast(parts, sep);
      var pre := Join(parts[..n - 1], sep);
      assert s == pre + (sep + last);
    }
    if !Contains(s, sep) {
      SplitWithoutSeparator(s, sep);
    }
  }
}
