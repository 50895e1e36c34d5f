/** The handful of fixed regular expressions the parser uses, matched the way
    Python's `re.findall` matches them: the scan tries each position from the
    left, a match found at a position is taken and the scan resumes at its
    end, `.` never crosses a newline, `*?` takes the shortest span that lets
    the rest match and `*`/`+` the longest. */
module Regex {
  import opened Wrappers
  import opened Text

  /** Each fixed expression, named for what it picks out. */
  datatype Pattern =
    | Coin          // \*\*⏣ [0-9]+\*\*   a bold coin amount
    | Digits        // [0-9]+  (also the cooldown's `(\d+)`: its group is the whole match)
    | Bold          // \*\*(.*?)\*\*       a bold span; the group is its inside
    | Tag           // <(.*?)\>            an angle-bracket tag; the group is its inside
    | QuantityMark  // \*\*[0-9]+x         the opening of a bold `Nx` quantity
    | QuantityLine  // \*\*[0-9]+x .+\*\*  a bold `Nx name` span, greedy
    | Starred       // \*\*.*\*            from `**` to the last `*` of the line
    | CountMark     // [0-9]+x             a quantity `Nx`

  /** Shortest text a match of `p` spans: the length of its fixed text plus
      one character for each `+` and none for each `*`. */
  function MinLen(p: Pattern): nat {
    match p
    case Coin => 7
    case Bold => 4
    case Tag => 2
    case QuantityMark => 4
    case QuantityLine => 8
    case Starred => 3
    case CountMark => 2
    case Digits => 1
  }

  /** Length of the longest run of ASCII digits starting at `i`. */
  function DigitRun(s: string, i: nat): (n: nat)
    requires i <= |s|
    ensures i + n <= |s|
    decreases |s| - i
  {
    if i < |s| && IsDigit(s[i]) then 1 + DigitRun(s, i + 1) else 0
  }

  /** The run is made of digits and is not followed by one. */
  lemma {:induction false} DigitRunSpec(s: string, i: nat)
    requires i <= |s|
    ensures forall k :: i <= k < i + DigitRun(s, i) ==> IsDigit(s[k])
    ensures i + DigitRun(s, i) == |s| || !IsDigit(s[i + DigitRun(s, i)])
    decreases |s| - i
  {
    if i < |s| && IsDigit(s[i]) {
      DigitRunSpec(s, i + 1);
    }
  }

  /** A run of digits that is followed by a non-digit is the longest one. */
  lemma {:induction false} DigitRunIs(s: string, i: nat, n: nat)
    requires i + n <= |s|
    requires forall k :: i <= k < i + n ==> IsDigit(s[k])
    requires i + n == |s| || !IsDigit(s[i + n])
    ensures DigitRun(s, i) == n
    decreases n
  {
    if n > 0 {
      DigitRunIs(s, i + 1, n - 1);
    }
  }

  /** No newline in `s[j..k]`: what `.` may span. */
  predicate LineFree(s: string, j: nat, k: nat) {
    forall m :: j <= m < k && m < |s| ==> s[m] != '\n'
  }

  /** `(.*?)` followed by `close`: the first position from `j` on where
      `close` occurs, provided no newline comes before it. */
  function LazyClose(s: string, j: nat, close: string): (r: Option<nat>)
    requires j <= |s|
    ensures r.Some? ==> j <= r.value && r.value + |close| <= |s|
    decreases |s| - j
  {
    if StartsAt(s, j, close) then Some(j)
    else if j == |s| || s[j] == '\n' then None
    else LazyClose(s, j + 1, close)
  }

  /** `LazyClose` finds the first occurrence of `close` on the line, and
      finds nothing only when there is none. */
  lemma {:induction false} LazyCloseSpec(s: string, j: nat, close: string)
    requires j <= |s|
    ensures var r := LazyClose(s, j, close);
      r.Some? ==> StartsAt(s, r.value, close) && LineFree(s, j, r.value) &&
                  forall k :: j <= k < r.value ==> !StartsAt(s, k, close)
    ensures LazyClose(s, j, close).None? ==>
      forall k :: j <= k <= |s| && LineFree(s, j, k) ==> !StartsAt(s, k, close)
    decreases |s| - j
  {
    if !StartsAt(s, j, close) && j < |s| && s[j] != '\n' {
      LazyCloseSpec(s, j + 1, close);
    }
  }

  /** The end of the line that contains position `i`. */
  function LineEnd(s: string, i: nat): (e: nat)
    requires i <= |s|
    ensures i <= e <= |s|
    decreases |s| - i
  {
    if i == |s| || s[i] == '\n' then i
    else LineEnd(s, i + 1)
  }

  lemma {:induction false} LineEndSpec(s: string, i: nat)
    requires i <= |s|
    ensures LineFree(s, i, LineEnd(s, i))
    ensures LineEnd(s, i) == |s| || s[LineEnd(s, i)] == '\n'
    decreases |s| - i
  {
    if i < |s| && s[i] != '\n' {
      LineEndSpec(s, i + 1);
    }
  }

  /** The last position in `[lo, hi]` where `close` occurs. */
  function LastAt(s: string, lo: nat, hi: int, close: string): (r: Option<nat>)
    ensures r.Some? ==> lo <= r.value <= hi
    decreases hi - lo + 1
  {
    if hi < lo then None
    else if StartsAt(s, hi as nat, close) then Some(hi as nat)
    else LastAt(s, lo, hi - 1, close)
  }

  lemma {:induction false} LastAtSpec(s: string, lo: nat, hi: int, close: string)
    ensures var r := LastAt(s, lo, hi, close);
      r.Some? ==> StartsAt(s, r.value, close) &&
                  forall k: nat :: r.value < k <= hi ==> !StartsAt(s, k, close)
    ensures LastAt(s, lo, hi, close).None? ==> forall k: nat :: lo <= k <= hi ==> !StartsAt(s, k, close)
    decreases hi - lo + 1
  {
    if hi >= lo && !StartsAt(s, hi as nat, close) {
      LastAtSpec(s, lo, hi - 1, close);
    }
  }

  /** `.*` (`minLen` 0) or `.+` (`minLen` 1) followed by `close`, greedy:
      the last position of the line from `b + minLen` on where `close`
      occurs. */
  function Greedy(s: string, b: nat, minLen: nat, close: string): (r: Option<nat>)
    requires b <= |s|
    ensures r.Some? ==> b + minLen <= r.value && r.value + |close| <= |s|
  {
    LastAt(s, b + minLen, LineEnd(s, b) - |close|, close)
  }

  /** `Greedy` finds the last occurrence of `close` on the line, and finds
      nothing only when there is none. */
  lemma GreedySpec(s: string, b: nat, minLen: nat, close: string)
    requires b <= |s|
    requires '\n' !in close
    ensures var r := Greedy(s, b, minLen, close);
      r.Some? ==> StartsAt(s, r.value, close) && LineFree(s, b, r.value) &&
                  forall k: nat :: r.value < k <= |s| && LineFree(s, b, k) ==> !StartsAt(s, k, close)
    ensures Greedy(s, b, minLen, close).None? ==>
      forall k: nat :: b + minLen <= k <= |s| && LineFree(s, b, k) ==> !StartsAt(s, k, close)
  {
    var e := LineEnd(s, b);
    LineEndSpec(s, b);
    LastAtSpec(s, b + minLen, e - |close|, close);
    forall k: nat | b <= k <= |s| && LineFree(s, b, k) && StartsAt(s, k, close)
      ensures k + |close| <= e
    {
      CloseWithinLine(s, b, k, close);
    }
  }

  /** An occurrence of a newline-free `close` on the line ends within it. */
  lemma CloseWithinLine(s: string, b: nat, k: nat, close: string)
    requires '\n' !in close && b <= k && LineFree(s, b, k) && StartsAt(s, k, close)
    ensures k + |close| <= LineEnd(s, b)
  {
    forall m | k <= m < k + |close| ensures s[m] != '\n' {
      assert s[m] == s[k..k + |close|][m - k] == close[m - k];
    }
    LineFreeWithin(s, b, k + |close|);
  }

  /** A newline-free span from `i` stays within the line of `i`. */
  lemma {:induction false} LineFreeWithin(s: string, i: nat, j: nat)
    requires i <= j <= |s| && LineFree(s, i, j)
    ensures j <= LineEnd(s, i)
    decreases |s| - i
  {
    if i < j {
      LineFreeWithin(s, i + 1, j);
    }
  }

  /** `\*\*⏣ [0-9]+\*\*` at `i`. */
  function CoinAt(s: string, i: nat): (r: Option<nat>)
    ensures r.Some? ==> i + 7 <= r.value <= |s|
  {
    if i < |s| && StartsAt(s, i, "**⏣ ") then
      var n := DigitRun(s, i + 4);
      if n > 0 && StartsAt(s, i + 4 + n, "**") then Some(i + 4 + n + 2) else None
    else None
  }

  /** `[0-9]+` at `i`. */
  function DigitsAt(s: string, i: nat): (r: Option<nat>)
    ensures r.Some? ==> i + 1 <= r.value <= |s|
  {
    if i < |s| then
      var n := DigitRun(s, i);
      if n > 0 then Some(i + n) else None
    else None
  }

  /** `\*\*(.*?)\*\*` at `i`. */
  function BoldAt(s: string, i: nat): (r: Option<nat>)
    ensures r.Some? ==> i + 4 <= r.value <= |s|
  {
    if i < |s| && StartsAt(s, i, "**") then
      match LazyClose(s, i + 2, "**")
      case Some(j) => Some(j + 2)
      case None => None
    else None
  }

  /** `<(.*?)\>` at `i`. */
  function TagAt(s: string, i: nat): (r: Option<nat>)
    ensures r.Some? ==> i + 2 <= r.value <= |s|
  {
    if i < |s| && StartsAt(s, i, "<") then
      match LazyClose(s, i + 1, ">")
      case Some(j) => Some(j + 1)
      case None => None
    else None
  }

  /** `\*\*[0-9]+x` at `i`. */
  function QuantityMarkAt(s: string, i: nat): (r: Option<nat>)
    ensures r.Some? ==> i + 4 <= r.value <= |s|
  {
    if i < |s| && StartsAt(s, i, "**") then
      var n := DigitRun(s, i + 2);
      if n > 0 && StartsAt(s, i + 2 + n, "x") then Some(i + 2 + n + 1) else None
    else None
  }

  /** `\*\*[0-9]+x .+\*\*` at `i`. */
  function QuantityLineAt(s: string, i: nat): (r: Option<nat>)
    ensures r.Some? ==> i + 8 <= r.value <= |s|
  {
    if i < |s| && StartsAt(s, i, "**") then
      var n := DigitRun(s, i + 2);
      if n > 0 && StartsAt(s, i + 2 + n, "x ") then
        match Greedy(s, i + 2 + n + 2, 1, "**")
        case Some(j) => Some(j + 2)
        case None => None
      else None
    else None
  }

  /** `\*\*.*\*` at `i`. */
  function StarredAt(s: string, i: nat): (r: Option<nat>)
    ensures r.Some? ==> i + 3 <= r.value <= |s|
  {
    if i < |s| && StartsAt(s, i, "**") then
      match Greedy(s, i + 2, 0, "*")
      case Some(j) => Some(j + 1)
      case None => None
    else None
  }

  /** `[0-9]+x` at `i`. */
  function CountMarkAt(s: string, i: nat): (r: Option<nat>)
    ensures r.Some? ==> i + 2 <= r.value <= |s|
  {
    if i < |s| then
      var n := DigitRun(s, i);
      if n > 0 && StartsAt(s, i + n, "x") then Some(i + n + 1) else None
    else None
  }

  /** Where a match of `p` that starts at `i` ends, if `p` matches there. */
  function MatchAt(p: Pattern, s: string, i: nat): (r: Option<nat>)
    ensures r.Some? ==> i + MinLen(p) <= r.value <= |s|
  {
    match p
    case Coin => CoinAt(s, i)
    case Digits => DigitsAt(s, i)
    case Bold => BoldAt(s, i)
    case Tag => TagAt(s, i)
    case QuantityMark => QuantityMarkAt(s, i)
    case QuantityLine => QuantityLineAt(s, i)
    case Starred => StarredAt(s, i)
    case CountMark => CountMarkAt(s, i)
  }

  /** What `findall` reports for a match: the group for the two patterns
      that have one, the whole match otherwise. */
  function Group(p: Pattern, s: string, i: nat, e: nat): string
    requires i + MinLen(p) <= e <= |s|
  {
    match p
    case Bold => s[i + 2..e - 2]
    case Tag => s[i + 1..e - 1]
    case _ => s[i..e]
  }

  datatype Match = Match(start: nat, end: nat, text: string)

  /** `m` is the match of `p` that starts at `m.start`. */
  predicate IsMatch(p: Pattern, s: string, m: Match) {
    MatchAt(p, s, m.start) == Some(m.end) &&
    m.start + MinLen(p) <= m.end <= |s| &&
    m.text == Group(p, s, m.start, m.end)
  }

  /** No match of `p` starts in `[lo, hi)`. */
  predicate NoMatchIn(p: Pattern, s: string, lo: nat, hi: nat) {
    forall k: nat :: lo <= k < hi ==> MatchAt(p, s, k).None?
  }

  /** `k` is the leftmost position from `lo` on where `p` matches. */
  predicate Leftmost(p: Pattern, s: string, lo: nat, k: nat) {
    lo <= k && MatchAt(p, s, k).Some? && NoMatchIn(p, s, lo, k)
  }

  /** The match of `p` that starts at `k`, if there is one. */
  function MatchFrom(p: Pattern, s: string, k: nat): (r: Option<Match>)
    ensures r.Some? ==> r.value.start == k && k < r.value.end <= |s|
  {
    match MatchAt(p, s, k)
    case Some(e) => Some(Match(k, e, Group(p, s, k, e)))
    case None => None
  }

  /** A matcher for a text of length `n`: a match found at `k` starts
      there and ends after it, within the text. */
  ghost predicate Advances(at: nat -> Option<Match>, n: nat) {
    forall k: nat :: at(k).Some? ==> at(k).value.start == k && k < at(k).value.end <= n
  }

  /** The scan `findall` performs with matcher `at` over a text of length
      `n`, from `i` on: try each position from the left, take the match
      found there and resume at its end. */
  function Scan(at: nat -> Option<Match>, n: nat, i: nat): seq<Match>
    requires Advances(at, n)
    decreases n - i
  {
    if i >= n then []
    else
      match at(i)
      case Some(m) => [m] + Scan(at, n, m.end)
      case None => Scan(at, n, i + 1)
  }

  /** `at` finds nothing in `[lo, hi)`. */
  predicate NoneIn(at: nat -> Option<Match>, lo: nat, hi: nat) {
    forall k: nat :: lo <= k < hi ==> at(k).None?
  }

  /** Every element of the scan is what the matcher finds at its start. */
  lemma {:induction false} ScanFound(at: nat -> Option<Match>, n: nat, i: nat)
    requires Advances(at, n)
    ensures forall j :: 0 <= j < |Scan(at, n, i)| ==> at(Scan(at, n, i)[j].start) == Some(Scan(at, n, i)[j])
    decreases n - i
  {
    if i < n {
      match at(i)
      case Some(m) =>
        ScanFound(at, n, m.end);
        forall j | 1 <= j < |Scan(at, n, i)| ensures Scan(at, n, i)[j] == Scan(at, n, m.end)[j - 1] { }
      case None =>
        ScanFound(at, n, i + 1);
    }
  }

  /** The scan is empty exactly when the matcher finds nothing. */
  lemma {:induction false} ScanEmpty(at: nat -> Option<Match>, n: nat, i: nat)
    requires Advances(at, n)
    ensures Scan(at, n, i) == [] <==> NoneIn(at, i, n)
    decreases n - i
  {
    if i < n && at(i).None? {
      ScanEmpty(at, n, i + 1);
    }
  }

  /** The first element of the scan is the leftmost match. */
  lemma {:induction false} ScanFirst(at: nat -> Option<Match>, n: nat, i: nat)
    requires Advances(at, n) && Scan(at, n, i) != []
    ensures var k := Scan(at, n, i)[0].start;
      i <= k && at(k) == Some(Scan(at, n, i)[0]) && NoneIn(at, i, k)
    decreases n - i
  {
    if at(i).None? {
      ScanFirst(at, n, i + 1);
    }
  }

  /** After the first match the scan resumes at its end. */
  lemma {:induction false} ScanResumes(at: nat -> Option<Match>, n: nat, i: nat)
    requires Advances(at, n) && Scan(at, n, i) != []
    ensures Scan(at, n, i)[1..] == Scan(at, n, Scan(at, n, i)[0].end)
    decreases n - i
  {
    if at(i).None? {
      ScanResumes(at, n, i + 1);
    }
  }

  /** Nothing is found after the end of the last match. */
  lemma {:induction false} ScanLast(at: nat -> Option<Match>, n: nat, i: nat)
    requires Advances(at, n) && Scan(at, n, i) != []
    ensures NoneIn(at, Scan(at, n, i)[|Scan(at, n, i)| - 1].end, n)
    decreases n - i
  {
    match at(i)
    case Some(m) =>
      if Scan(at, n, m.end) == [] {
        ScanEmpty(at, n, m.end);
      } else {
        ScanLast(at, n, m.end);
      }
    case None =>
      ScanLast(at, n, i + 1);
  }

  /** The matcher of `p` in `s`. */
  function Matcher(p: Pattern, s: string): nat -> Option<Match> {
    (k: nat) => MatchFrom(p, s, k)
  }

  /** `re.findall(p, s)` as a list of matches. */
  function FindAll(p: Pattern, s: string): seq<Match> {
    MatcherAdvances(p, s);
    Scan(Matcher(p, s), |s|, 0)
  }

  /** `re.findall(p, s)[n]`, `None` where Python raises `IndexError`. */
  function Nth(p: Pattern, s: string, n: nat): Option<string> {
    var ms := FindAll(p, s);
    if n < |ms| then Some(ms[n].text) else None
  }

  /** The matcher `findall` scans with. */
  lemma MatcherAdvances(p: Pattern, s: string)
    ensures Advances(Matcher(p, s), |s|)
  {
  }

  /** A match `MatchFrom` reports is a match of the pattern. */
  lemma MatchFromIs(p: Pattern, s: string, m: Match)
    requires MatchFrom(p, s, m.start) == Some(m)
    ensures IsMatch(p, s, m)
  {
  }

  /** The matcher finds nothing exactly where the pattern does not match. */
  lemma NoneInIff(p: Pattern, s: string, lo: nat, hi: nat)
    ensures NoneIn(Matcher(p, s), lo, hi) <==> NoMatchIn(p, s, lo, hi)
  {
    var at := Matcher(p, s);
    if NoMatchIn(p, s, lo, hi) {
      forall k: nat | lo <= k < hi ensures at(k).None? {
        assert MatchAt(p, s, k).None?;
      }
    }
    if NoneIn(at, lo, hi) {
      forall k: nat | lo <= k < hi ensures MatchAt(p, s, k).None? {
        assert at(k).None?;
      }
    }
  }

  /** Each element of `findall` is a match. */
  lemma FindAllMatches(p: Pattern, s: string)
    ensures forall j :: 0 <= j < |FindAll(p, s)| ==> IsMatch(p, s, FindAll(p, s)[j])
  {
    MatcherAdvances(p, s);
    var at := Matcher(p, s);
    var r := FindAll(p, s);
    ScanFound(at, |s|, 0);
    forall j | 0 <= j < |r| ensures IsMatch(p, s, r[j]) {
      assert at(r[j].start) == Some(r[j]);
      MatchFromIs(p, s, r[j]);
    }
  }

  /** `findall` is empty exactly when nothing matches. */
  lemma FindAllEmpty(p: Pattern, s: string)
    ensures FindAll(p, s) == [] <==> NoMatchIn(p, s, 0, |s|)
  {
    MatcherAdvances(p, s);
    ScanEmpty(Matcher(p, s), |s|, 0);
    NoneInIff(p, s, 0, |s|);
  }

  /** The first element of `findall` is the leftmost match. */
  lemma FindAllFirst(p: Pattern, s: string)
    requires FindAll(p, s) != []
    ensures Leftmost(p, s, 0, FindAll(p, s)[0].start)
    ensures MatchAt(p, s, FindAll(p, s)[0].start) == Some(FindAll(p, s)[0].end)
  {
    MatcherAdvances(p, s);
    var at := Matcher(p, s);
    var m := FindAll(p, s)[0];
    ScanFirst(at, |s|, 0);
    NoneInIff(p, s, 0, m.start);
    assert at(m.start) == Some(m);
  }

  /** Nothing matches after the end of the last element of `findall`. */
  lemma FindAllLast(p: Pattern, s: string)
    requires FindAll(p, s) != []
    ensures NoMatchIn(p, s, FindAll(p, s)[|FindAll(p, s)| - 1].end, |s|)
  {
    MatcherAdvances(p, s);
    var r := FindAll(p, s);
    var e := r[|r| - 1].end;
    ScanLast(Matcher(p, s), |s|, 0);
    assert NoneIn(Matcher(p, s), e, |s|);
    NoneInIff(p, s, e, |s|);
  }

  /** The first match is the leftmost one in the whole string. */
  lemma FirstMatch(p: Pattern, s: string, k: nat)
    requires Leftmost(p, s, 0, k)
    ensures FindAll(p, s) != []
    ensures FindAll(p, s)[0].start == k
    ensures Nth(p, s, 0) == Some(Group(p, s, k, MatchAt(p, s, k).value))
  {
    FindAllEmpty(p, s);
    assert FindAll(p, s) != [] by {
      assert MatchAt(p, s, k).Some?;
    }
    FindAllFirst(p, s);
    FindAllMatches(p, s);
    var m := FindAll(p, s)[0];
    LeftmostUnique(p, s, 0, m.start, k);
    assert IsMatch(p, s, m);
  }

  /** `findall` has no first element exactly when nothing matches. */
  lemma NthNone(p: Pattern, s: string)
    ensures Nth(p, s, 0).None? <==> NoMatchIn(p, s, 0, |s|)
  {
    FindAllEmpty(p, s);
  }

  /** Two leftmost positions are the same one. */
  lemma LeftmostUnique(p: Pattern, s: string, lo: nat, k1: nat, k2: nat)
    requires Leftmost(p, s, lo, k1) && Leftmost(p, s, lo, k2)
    ensures k1 == k2
  {
  }

  /** The second element of `findall` is the leftmost match after the end
      of the first. */
  lemma NthSecond(p: Pattern, s: string, k1: nat, e1: nat, k2: nat)
    requires Leftmost(p, s, 0, k1) && MatchAt(p, s, k1) == Some(e1)
    requires Leftmost(p, s, e1, k2)
    ensures Nth(p, s, 1) == Some(Group(p, s, k2, MatchAt(p, s, k2).value))
  {
    MatcherAdvances(p, s);
    var at := Matcher(p, s);
    FirstMatch(p, s, k1);
    FindAllFirst(p, s);
    ScanResumes(at, |s|, 0);
    var rest := Scan(at, |s|, e1);
    assert rest != [] by {
      ScanEmpty(at, |s|, e1);
      NoneInIff(p, s, e1, |s|);
      assert MatchAt(p, s, k2).Some?;
    }
    ScanFirst(at, |s|, e1);
    NoneInIff(p, s, e1, rest[0].start);
    assert at(rest[0].start) == Some(rest[0]);
    LeftmostUnique(p, s, e1, rest[0].start, k2);
    assert FindAll(p, s)[1] == rest[0];
  }

  /** Without a match after the end of the first, `findall` has no second
      element. */
  lemma NthNoSecond(p: Pattern, s: string, k1: nat, e1: nat)
    requires Leftmost(p, s, 0, k1) && MatchAt(p, s, k1) == Some(e1)
    requires NoMatchIn(p, s, e1, |s|)
    ensures Nth(p, s, 1).None?
  {
    MatcherAdvances(p, s);
    var at := Matcher(p, s);
    FirstMatch(p, s, k1);
    FindAllFirst(p, s);
    ScanResumes(at, |s|, 0);
    ScanEmpty(at, |s|, e1);
    NoneInIff(p, s, e1, |s|);
  }

  /** `findall` finds something exactly when the pattern matches somewhere. */
  lemma FindsIff(p: Pattern, s: string)
    ensures Nth(p, s, 0).Some? <==> exists k: nat :: MatchAt(p, s, k).Some?
  {
    FindAllEmpty(p, s);
    if k: nat :| MatchAt(p, s, k).Some? {
      assert k < |s|;
      assert !NoMatchIn(p, s, 0, |s|);
    }
  }
}
