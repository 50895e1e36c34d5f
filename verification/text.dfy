/** The Python string operations the parser is built from: `in`, `str.replace`
    with an empty replacement, `str.split` on one character, `" ".join`, list
    slicing past the end and `int()` on a run of decimal digits. Strings are
    sequences of Unicode scalar values: Python 3 `str` values are code points
    and may also hold lone surrogates, which the model does not represent. */
module Text {
  import opened Wrappers

  /** `t` occurs in `s` at position `i`. */
  predicate StartsAt(s: string, i: nat, t: string) {
    i + |t| <= |s| && s[i..i + |t|] == t
  }

  /** Python `t in s[i:]`, scanned left to right. */
  predicate ContainsFrom(s: string, t: string, i: nat)
    decreases |s| - i
  {
    StartsAt(s, i, t) || (i < |s| && ContainsFrom(s, t, i + 1))
  }

  /** Python `t in s`: true exactly when `t` occurs at some position of `s`. */
  predicate Contains(s: string, t: string)
  {
    ContainsFrom(s, t, 0)
  }

  lemma {:induction false} ContainsFromIff(s: string, t: string, i: nat)
    ensures ContainsFrom(s, t, i) <==> exists k: nat :: i <= k && StartsAt(s, k, t)
    decreases |s| - i
  {
    if i < |s| {
      ContainsFromIff(s, t, i + 1);
      if exists k: nat :: i <= k && StartsAt(s, k, t) {
        var k: nat :| i <= k && StartsAt(s, k, t);
        assert k == i || (i + 1 <= k && StartsAt(s, k, t));
      }
    } else {
      assert forall k: nat :: i < k ==> !StartsAt(s, k, t);
    }
  }

  /** `Contains` finds a substring wherever it occurs. */
  lemma ContainsIff(s: string, t: string)
    ensures Contains(s, t) <==> exists k: nat :: StartsAt(s, k, t)
  {
    ContainsFromIff(s, t, 0);
  }

  /** Python `s.replace(pat, "")`: every occurrence of `pat` found by a left
      to right scan that resumes after each occurrence is deleted. */
  function RemoveAll(s: string, pat: string): (r: string)
    requires pat != []
    ensures |r| <= |s|
    decreases |s|
  {
    if StartsAt(s, 0, pat) then RemoveAll(s[|pat|..], pat)
    else if s == [] then []
    else [s[0]] + RemoveAll(s[1..], pat)
  }

  /** Replacing a pattern that does not occur leaves the string as it was. */
  lemma {:induction false} RemoveAllAbsent(s: string, pat: string)
    requires pat != []
    requires !Contains(s, pat)
    ensures RemoveAll(s, pat) == s
    decreases |s|
  {
    ContainsIff(s, pat);
    if s != [] {
      assert !StartsAt(s, 0, pat);
      forall k: nat | StartsAt(s[1..], k, pat) ensures false {
        assert s[1..][k..k + |pat|] == s[k + 1..k + 1 + |pat|];
        assert StartsAt(s, k + 1, pat);
      }
      ContainsIff(s[1..], pat);
      RemoveAllAbsent(s[1..], pat);
    }
  }

  /** `s.replace(c, "")` for one character removes every `c` and keeps every
      other character, as many times as it occurs. */
  lemma {:induction false} RemoveCharSpec(s: string, c: char)
    ensures c !in RemoveAll(s, [c])
    ensures multiset(RemoveAll(s, [c])) == multiset(s)[c := 0]
    decreases |s|
  {
    if s != [] {
      RemoveCharSpec(s[1..], c);
      assert s == [s[0]] + s[1..];
      assert StartsAt(s, 0, [c]) <==> s[0] == c;
    }
  }

  /** Deleting one character works piece by piece: the text before and the
      text after any cut are cleaned separately, in their order. */
  lemma {:induction false} RemoveCharConcat(a: string, b: string, c: char)
    ensures RemoveAll(a + b, [c]) == RemoveAll(a, [c]) + RemoveAll(b, [c])
    decreases |a|
  {
    if a != [] {
      assert (a + b)[1..] == a[1..] + b;
      assert StartsAt(a + b, 0, [c]) <==> a[0] == c;
      assert StartsAt(a, 0, [c]) <==> a[0] == c;
      RemoveCharConcat(a[1..], b, c);
    } else {
      assert a + b == b;
    }
  }

  /** A single character is deleted when it is `c` and kept otherwise; with
      `RemoveCharConcat` this fixes the result, order included. */
  lemma RemoveCharSingle(x: char, c: char)
    ensures RemoveAll([x], [c]) == if x == c then [] else [x]
  {
    assert [x][0..1] == [x];
    assert [x][1..] == [];
    assert RemoveAll([], [c]) == [];
  }

  /** Python `s.split(sep)` with an explicit separator: every separator cuts,
      so empty pieces are kept and there is always at least one piece. */
  function Split(s: string, sep: char): seq<string>
    decreases |s|
  {
    if s == [] then [""]
    else
      var rest := Split(s[1..], sep);
      if s[0] == sep then [""] + rest
      else [[s[0]] + rest[0]] + rest[1..]
  }

  /** A split has one piece more than there are separators, and no piece
      holds a separator. */
  lemma {:induction false} SplitSpec(s: string, sep: char)
    ensures |Split(s, sep)| == multiset(s)[sep] + 1
    ensures forall k :: 0 <= k < |Split(s, sep)| ==> sep !in Split(s, sep)[k]
    decreases |s|
  {
    if s != [] {
      assert s == [s[0]] + s[1..];
      SplitSpec(s[1..], sep);
      var rest := Split(s[1..], sep);
      if s[0] != sep {
        forall k | 0 <= k < |Split(s, sep)| ensures sep !in Split(s, sep)[k] {
          if k > 0 {
            assert Split(s, sep)[k] == rest[k];
          }
        }
      }
    }
  }

  /** Python `sep.join(parts)` for a one-character separator. */
  function Join(parts: seq<string>, sep: char): string
    decreases |parts|
  {
    if parts == [] then ""
    else if |parts| == 1 then parts[0]
    else parts[0] + [sep] + Join(parts[1..], sep)
  }

  /** Joining the pieces of a split gives back the original string. */
  lemma {:induction false} JoinSplit(s: string, sep: char)
    ensures Join(Split(s, sep), sep) == s
    decreases |s|
  {
    if s != [] {
      JoinSplit(s[1..], sep);
      if s[0] == sep {
        JoinSplitSeparator(s, sep);
      } else {
        JoinExtendFirst(s[0], Split(s[1..], sep), sep);
        assert s == [s[0]] + s[1..];
      }
    }
  }

  /** A leading separator adds an empty first piece. */
  lemma JoinSplitSeparator(s: string, sep: char)
    requires s != [] && s[0] == sep
    requires Join(Split(s[1..], sep), sep) == s[1..]
    ensures Join(Split(s, sep), sep) == s
  {
    var rest := Split(s[1..], sep);
    assert rest != [];
    assert Join([""] + rest, sep) == [sep] + Join(rest, sep);
    assert s == [s[0]] + s[1..];
  }

  /** Prefixing the first piece prefixes the joined string. */
  lemma JoinExtendFirst(c: char, parts: seq<string>, sep: char)
    requires parts != []
    ensures Join([[c] + parts[0]] + parts[1..], sep) == [c] + Join(parts, sep)
  {
    var ext := [[c] + parts[0]] + parts[1..];
    if |parts| > 1 {
      assert ext[1..] == parts[1..];
    }
  }

  /** Python `parts[k:]`, which is empty when `k` is past the end. */
  function Drop<T>(parts: seq<T>, k: nat): (r: seq<T>)
    ensures |r| == if k <= |parts| then |parts| - k else 0
  {
    if k <= |parts| then parts[k..] else []
  }

  /** Position of the first `c` in `s`. */
  function IndexOf(s: string, c: char): (i: nat)
    requires c in s
    ensures i < |s| && s[i] == c && c !in s[..i]
  {
    if s[0] == c then 0
    else
      assert c in s[1..] by { assert s == [s[0]] + s[1..]; }
      var j := IndexOf(s[1..], c);
      assert s[..j + 1] == [s[0]] + s[1..][..j];
      1 + j
  }

  /** What follows the first `c` in `s`; empty when `s` has no `c`. */
  function After(s: string, c: char): (r: string)
    ensures |r| < |s| || r == []
  {
    if c in s then s[IndexOf(s, c) + 1..] else []
  }

  /** The first piece of a split runs up to the first separator and the
      other pieces are the split of what follows it. */
  lemma {:induction false} SplitAtFirst(s: string, sep: char)
    requires sep in s
    ensures Split(s, sep) == [s[..IndexOf(s, sep)]] + Split(After(s, sep), sep)
    decreases |s|
  {
    if s[0] != sep {
      assert sep in s[1..] by { assert s == [s[0]] + s[1..]; }
      SplitAtFirst(s[1..], sep);
      assert s[1..][IndexOf(s[1..], sep) + 1..] == s[IndexOf(s, sep) + 1..];
      assert s[..IndexOf(s, sep)] == [s[0]] + s[1..][..IndexOf(s[1..], sep)];
    }
  }

  /** A string without the separator splits into itself alone. */
  lemma {:induction false} SplitNoSeparator(s: string, sep: char)
    requires sep !in s
    ensures Split(s, sep) == [s]
    decreases |s|
  {
    if s != [] {
      assert s == [s[0]] + s[1..];
      SplitNoSeparator(s[1..], sep);
      assert [s[0]] + s[1..] == s;
    }
  }

  /** Python `sep.join(s.split(sep)[k:])`: `s` with its first `k` pieces
      dropped. */
  function DropPieces(s: string, sep: char, k: nat): string
  {
    Join(Drop(Split(s, sep), k), sep)
  }

  /** Dropping one more piece is dropping through the first separator and
      then the rest; a string without the separator loses everything. */
  lemma {:induction false} DropPiecesStep(s: string, sep: char, k: nat)
    ensures DropPieces(s, sep, k + 1) == DropPieces(After(s, sep), sep, k)
  {
    if sep in s {
      SplitAtFirst(s, sep);
      var rest := Split(After(s, sep), sep);
      assert Drop([s[..IndexOf(s, sep)]] + rest, k + 1) == Drop(rest, k);
    } else {
      SplitNoSeparator(s, sep);
      assert Split([], sep) == [""];
      if k == 0 {
        assert Drop([""], 0) == [""];
      }
    }
  }

  /** Dropping one piece leaves exactly the text after the first separator. */
  lemma DropOnePiece(s: string, sep: char)
    ensures DropPieces(s, sep, 1) == After(s, sep)
  {
    DropPiecesStep(s, sep, 0);
    JoinSplit(After(s, sep), sep);
  }

  predicate IsDigit(c: char) {
    '0' <= c <= '9'
  }

  predicate AllDigits(s: string) {
    forall k :: 0 <= k < |s| ==> IsDigit(s[k])
  }

  /** The number written in decimal by the digit string `s`. */
  function DigitsValue(s: string): nat
    requires AllDigits(s)
    decreases |s|
  {
    if s == [] then 0
    else DigitsValue(s[..|s| - 1]) * 10 + (s[|s| - 1] as int - '0' as int)
  }

  /** Python `int(s)` on the inputs this model gives it: a non-empty run of
      ASCII digits parses to its value and anything else raises (`None`). */
  function ParseInt(s: string): (r: Option<nat>)
    ensures r.Some? <==> s != [] && AllDigits(s)
  {
    if s != [] && AllDigits(s) then Some(DigitsValue(s)) else None
  }
}
