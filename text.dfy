/** String helpers shared by the routes: JavaScript's `split` on a one-character
    separator, `join`, the `startsWith`/`endsWith` tests on a single character,
    and the `substring(0, n) + '...'` preview. */
module Text {

  /** `s.split(sep)` for a one-character separator: the pieces between
      separators, in order, empty pieces kept; the empty string gives `[""]`. */
  function Split(s: string, sep: char): (parts: seq<string>)
    ensures |parts| >= 1
    ensures forall i :: 0 <= i < |parts| ==> sep !in parts[i]
  {
    if |s| == 0 then [""]
    else
      var rest := Split(s[1..], sep);
      if s[0] == sep then [""] + rest
      else [[s[0]] + rest[0]] + rest[1..]
  }

  /** `parts.join(sep)`. */
  function Join(parts: seq<string>, sep: string): string
  {
    if |parts| == 0 then ""
    else if |parts| == 1 then parts[0]
    else parts[0] + sep + Join(parts[1..], sep)
  }

  /** Splitting on a character and joining back with it gives the string back. */
  lemma {:induction false} JoinSplit(s: string, sep: char)
    ensures Join(Split(s, sep), [sep]) == s
  {
    if |s| > 0 {
      var rest := Split(s[1..], sep);
      JoinSplit(s[1..], sep);
      assert Join(rest, [sep]) == s[1..];
      if s[0] == sep {
        assert Split(s, sep)[1..] == rest;
        calc {
          Join(Split(s, sep), [sep]);
          "" + [sep] + Join(rest, [sep]);
          [s[0]] + s[1..];
          s;
        }
      } else if |rest| == 1 {
        assert Join(rest, [sep]) == rest[0];
        calc {
          Join(Split(s, sep), [sep]);
          [s[0]] + rest[0];
          s;
        }
      } else {
        var parts := Split(s, sep);
        assert parts[1..] == rest[1..];
        calc {
          Join(parts, [sep]);
          ([s[0]] + rest[0]) + [sep] + Join(rest[1..], [sep]);
          [s[0]] + (rest[0] + [sep] + Join(rest[1..], [sep]));
          [s[0]] + Join(rest, [sep]);
          s;
        }
      }
    }
  }

  /** A join is empty exactly when there is nothing to join, or a single empty
      piece: with a non-empty separator two pieces always produce text. */
  lemma JoinEmptyIff(parts: seq<string>, sep: string)
    requires |sep| > 0
    ensures Join(parts, sep) == "" <==> |parts| == 0 || (|parts| == 1 && parts[0] == "")
  {
    if |parts| >= 2 {
      assert |Join(parts, sep)| >= |sep|;
    }
  }

  /** Every piece occurs, unchanged, inside the join. */
  lemma {:induction false} JoinContainsParts(parts: seq<string>, sep: string, i: nat)
    requires i < |parts|
    ensures exists pre, post :: Join(parts, sep) == pre + parts[i] + post
  {
    if |parts| == 1 {
      assert Join(parts, sep) == "" + parts[0] + "";
    } else if i == 0 {
      assert Join(parts, sep) == "" + parts[0] + (sep + Join(parts[1..], sep));
    } else {
      JoinContainsParts(parts[1..], sep, i - 1);
      var pre, post :| Join(parts[1..], sep) == pre + parts[1..][i - 1] + post;
      assert Join(parts, sep) == (parts[0] + sep + pre) + parts[i] + post;
    }
  }

  /** `s.startsWith(c)` for a one-character string `c`. */
  predicate StartsWith(s: string, c: char)
  {
    |s| > 0 && s[0] == c
  }

  /** `s.endsWith(c)` for a one-character string `c`. */
  predicate EndsWith(s: string, c: char)
  {
    |s| > 0 && s[|s| - 1] == c
  }

  function Min(a: int, b: int): int
  {
    if a <= b then a else b
  }

  /** `s.substring(0, n) + '...'`: at most the first `n` characters, then an ellipsis. */
  function Preview(s: string, n: nat): (p: string)
    ensures |p| == Min(n, |s|) + 3
    ensures p[|p| - 3..] == "..."
    ensures p[..|p| - 3] <= s
    ensures |s| <= n ==> p == s + "..."
  {
    s[..Min(n, |s|)] + "..."
  }

  /** No value occurs twice in `s`. */
  predicate NoDuplicates<T(==)>(s: seq<T>)
  {
    forall i, j :: 0 <= i < j < |s| ==> s[i] != s[j]
  }

  /** Index of the first occurrence of `x` in `s`. */
  function FirstIndex<T(==)>(s: seq<T>, x: T): (k: nat)
    requires x in s
    ensures k < |s| && s[k] == x && x !in s[..k]
  {
    if s[0] == x then 0 else 1 + FirstIndex(s[1..], x)
  }
}
