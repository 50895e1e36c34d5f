/** The reply parser: one extractor per command family, each a function from
    the reply's description text (and, for buy and sell, the caller's item
    and quantity) to a `CommandResult`. Every extractor first deletes every
    comma, the thousands separator. Where the source lets an exception
    escape, the extractor returns `None`. */
module Parser {
  import opened Wrappers
  import opened Text
  import opened Regex

  /** One `{quantity: name}` dictionary; `name` is `None` where the source
      stores Python's `None`. */
  datatype Entry = Entry(quantity: int, name: Option<string>)

  /** A gain or loss dictionary: an optional `"coins"` key, an optional
      `"items"` list, and, for buy and sell, the bare `{quantity: item}`
      pair the source uses as the whole dictionary. */
  datatype Tally = Tally(coins: Option<nat>, items: Option<seq<Entry>>, bare: Option<Entry>)

  /** The empty dictionary `{}`. */
  const Empty := Tally(None, None, None)

  /** The outcome record. `gain` and `loss` are `None` where the source passes
      Python's `None`; `cooldown` is in whole seconds. */
  datatype CommandResult = CommandResult(
    success: bool,
    death: Option<bool>,
    gain: Option<Tally>,
    loss: Option<Tally>,
    cooldown: Option<int>)

  /** Python truthiness of an optional integer: present and non-zero. */
  predicate Truthy(n: Option<nat>) {
    n.Some? && n.value != 0
  }

  /** `k` is the position of the first digit of `s`. */
  predicate FirstDigit(s: string, k: nat) {
    k < |s| && IsDigit(s[k]) && forall j :: 0 <= j < k ==> !IsDigit(s[j])
  }

  /** The value of the run of digits that starts at `k`. */
  function RunValue(s: string, k: nat): nat
    requires k <= |s|
  {
    DigitRunSpec(s, k);
    DigitsValue(s[k..k + DigitRun(s, k)])
  }

  /** The first integer written in `s`: the value of the run of digits at
      the first digit, or `None` (the source raises) when `s` has no
      digit. */
  function FirstInt(s: string): Option<nat> {
    match Nth(Digits, s, 0)
    case None => None
    case Some(ds) => ParseInt(ds)
  }

  /** `FirstInt` fails exactly on a text without digits, and otherwise
      reads the whole run of digits that starts at the first digit. */
  lemma FirstIntSpec(s: string)
    ensures FirstInt(s).None? <==> forall k :: 0 <= k < |s| ==> !IsDigit(s[k])
    ensures forall k: nat :: FirstDigit(s, k) ==> FirstInt(s) == Some(RunValue(s, k))
  {
    FirstIntFound(s);
  }

  lemma FirstIntFound(s: string)
    ensures Nth(Digits, s, 0).None? <==> forall k :: 0 <= k < |s| ==> !IsDigit(s[k])
    ensures Nth(Digits, s, 0).Some? ==> ParseInt(Nth(Digits, s, 0).value).Some?
    ensures forall k: nat :: FirstDigit(s, k) ==>
      Nth(Digits, s, 0).Some? && ParseInt(Nth(Digits, s, 0).value) == Some(RunValue(s, k))
  {
    forall k: nat | FirstDigit(s, k)
      ensures Nth(Digits, s, 0).Some? && ParseInt(Nth(Digits, s, 0).value) == Some(RunValue(s, k))
    {
      FirstDigitRead(s, k);
    }
    if forall k :: 0 <= k < |s| ==> !IsDigit(s[k]) {
      NoDigits(s);
    } else {
      var i :| 0 <= i < |s| && IsDigit(s[i]);
      var k := SomeFirstDigit(s, i);
      FirstDigitRead(s, k);
    }
  }

  /** The first digit is where `findall` finds its first match. */
  lemma FirstDigitRead(s: string, k: nat)
    requires FirstDigit(s, k)
    ensures Nth(Digits, s, 0).Some? && ParseInt(Nth(Digits, s, 0).value) == Some(RunValue(s, k))
  {
    FirstDigitLeftmost(s, k);
    var e := k + DigitRun(s, k);
    assert MatchAt(Digits, s, k) == Some(e);
    FirstRun(s, k, e);
    RunParses(s, k, e);
  }

  lemma FirstRun(s: string, k: nat, e: nat)
    requires Leftmost(Digits, s, 0, k)
    requires MatchAt(Digits, s, k) == Some(e)
    ensures Nth(Digits, s, 0) == Some(s[k..e])
  {
    FirstMatch(Digits, s, k);
  }

  lemma RunParses(s: string, k: nat, e: nat)
    requires k < |s| && IsDigit(s[k]) && e == k + DigitRun(s, k)
    ensures ParseInt(s[k..e]) == Some(RunValue(s, k))
  {
    var ds := s[k..e];
    RunDigits(s, k, e);
    assert RunValue(s, k) == DigitsValue(ds);
  }

  lemma RunDigits(s: string, k: nat, e: nat)
    requires k < |s| && IsDigit(s[k]) && e == k + DigitRun(s, k)
    ensures s[k..e] != [] && AllDigits(s[k..e])
  {
    DigitRunSpec(s, k);
    var ds := s[k..e];
    forall m | 0 <= m < |ds| ensures IsDigit(ds[m]) {
      assert ds[m] == s[k + m];
    }
  }

  lemma FirstDigitLeftmost(s: string, k: nat)
    requires FirstDigit(s, k)
    ensures Leftmost(Digits, s, 0, k)
  {
    assert MatchAt(Digits, s, k).Some?;
    forall j: nat | j < k ensures MatchAt(Digits, s, j).None? {
      assert !IsDigit(s[j]);
    }
  }

  lemma NoDigits(s: string)
    requires forall k :: 0 <= k < |s| ==> !IsDigit(s[k])
    ensures Nth(Digits, s, 0).None?
  {
    forall k: nat | k < |s| ensures MatchAt(Digits, s, k).None? {
      assert !IsDigit(s[k]);
    }
    NthNone(Digits, s);
  }

  /** A string with a digit has a first digit. */
  lemma {:induction false} SomeFirstDigit(s: string, i: nat) returns (k: nat)
    requires i < |s| && IsDigit(s[i])
    ensures FirstDigit(s, k)
    decreases i
  {
    if FirstDigit(s, i) {
      k := i;
    } else {
      var j :| 0 <= j < i && IsDigit(s[j]);
      k := SomeFirstDigit(s, j);
    }
  }

  /** The digits of a coin amount matched at `k`. */
  function CoinDigitsAt(t: string, k: nat): (ds: string)
    requires MatchAt(Coin, t, k).Some?
    ensures ds != [] && AllDigits(ds)
  {
    DigitRunSpec(t, k + 4);
    t[k + 4..MatchAt(Coin, t, k).value - 2]
  }

  /** The coin amount beg, search and crime read: the first integer inside
      the first bold `⏣` amount of the text; `None` where there is none and
      the source's `try` catches the resulting error. */
  function CoinAmount(t: string): Option<nat> {
    match Nth(Coin, t, 0)
    case None => None
    case Some(m) => FirstInt(m)
  }

  /** `CoinAmount` fails exactly when there is no coin amount, and
      otherwise reads the digits of the leftmost one. */
  lemma CoinAmountSpec(t: string)
    ensures CoinAmount(t).None? <==> NoMatchIn(Coin, t, 0, |t|)
    ensures forall k: nat :: Leftmost(Coin, t, 0, k) ==> CoinAmount(t) == Some(DigitsValue(CoinDigitsAt(t, k)))
  {
    CoinFirst(t);
    if FindAll(Coin, t) != [] {
      FindAllFirst(Coin, t);
    }
  }

  lemma CoinFirst(t: string)
    ensures Nth(Coin, t, 0).None? <==> NoMatchIn(Coin, t, 0, |t|)
    ensures forall k: nat :: Leftmost(Coin, t, 0, k) ==>
      Nth(Coin, t, 0).Some? && FirstInt(Nth(Coin, t, 0).value) == Some(DigitsValue(CoinDigitsAt(t, k)))
  {
    NthNone(Coin, t);
    forall k: nat | Leftmost(Coin, t, 0, k)
      ensures Nth(Coin, t, 0).Some? && FirstInt(Nth(Coin, t, 0).value) == Some(DigitsValue(CoinDigitsAt(t, k)))
    {
      FirstMatch(Coin, t, k);
      CoinText(t, k);
    }
  }

  /** A coin match reads as its own digits. */
  lemma CoinText(t: string, k: nat)
    requires MatchAt(Coin, t, k).Some?
    ensures FirstInt(t[k..MatchAt(Coin, t, k).value]) == Some(DigitsValue(CoinDigitsAt(t, k)))
  {
    var e := MatchAt(Coin, t, k).value;
    var n := DigitRun(t, k + 4);
    assert e == k + 4 + n + 2 && n > 0;
    assert StartsAt(t, k, "**⏣ ") && StartsAt(t, k + 4 + n, "**");
    DigitRunSpec(t, k + 4);
    var m := t[k..e];
    CoinRun(t, k, n, m);
    FirstIntSpec(m);
    assert m[4..4 + n] == CoinDigitsAt(t, k);
  }

  /** Inside a coin match `**⏣ ddd**` the first digit is at 4 and its run
      is the amount's digits. */
  lemma CoinRun(t: string, k: nat, n: nat, m: string)
    requires StartsAt(t, k, "**⏣ ") && StartsAt(t, k + 4 + n, "**") && n > 0
    requires forall j :: k + 4 <= j < k + 4 + n ==> IsDigit(t[j])
    requires m == t[k..k + 4 + n + 2]
    ensures FirstDigit(m, 4) && DigitRun(m, 4) == n
  {
    forall j | 0 <= j < 4 ensures !IsDigit(m[j]) {
      assert m[j] == t[k..k + 4][j] == "**⏣ "[j];
    }
    forall j | 4 <= j < 4 + n ensures IsDigit(m[j]) {
      assert m[j] == t[k + j];
    }
    assert m[4 + n] == t[k + 4 + n..k + 4 + n + 2][0] == '*';
    DigitRunIs(m, 4, n);
  }

  /** The bold span beg and crime read the item from: the second bold span
      of the text when a non-zero coin amount was read, the first
      otherwise. */
  function ItemSpan(t: string, coins: Option<nat>): Option<string> {
    Nth(Bold, t, if Truthy(coins) then 1 else 0)
  }

  /** The item with its emoji tag removed: the first `<...>` tag found in
      it, followed by a space, is deleted wherever it occurs; an item
      without a tag is kept as it is (the source catches the error). */
  function Untagged(item: string): (r: string)
    ensures |r| <= |item|
    ensures '<' !in item ==> r == item
  {
    if '<' !in item then NoTag(item); item
    else
      match Nth(Tag, item, 0)
      case None => item
      case Some(tag) => RemoveAll(item, "<" + tag + "> ")
  }

  /** Without a `<` there is no tag. */
  lemma NoTag(item: string)
    requires '<' !in item
    ensures Nth(Tag, item, 0).None?
  {
    forall k: nat ensures TagAt(item, k).None? {
      if k < |item| {
        assert item[k..k + 1] == [item[k]];
      }
    }
    NthNone(Tag, item);
  }

  /** `[{1: item}]` for a non-empty item, nothing for an empty one. */
  function Listed(item: string): Option<seq<Entry>> {
    if item != [] then Some([Entry(1, Some(item))]) else None
  }

  /** The result beg and crime build: coins and item are recorded only when
      truthy, and success means that either was read at all. */
  function Outcome(coins: Option<nat>, item: Option<string>): CommandResult {
    var gain := Tally(
      if Truthy(coins) then coins else None,
      if item.Some? then Listed(item.value) else None,
      None);
    CommandResult(coins.Some? || item.Some?, None, Some(gain), Some(Empty), None)
  }

  /** `Parser.beg`. Without a (non-zero) coin amount the source's tag
      removal refers to an unassigned variable; the error is swallowed, so
      the item keeps its tag. */
  function Beg(description: string): CommandResult {
    var t := RemoveAll(description, ",");
    var coins := CoinAmount(t);
    var span := ItemSpan(t, coins);
    var item :=
      if Truthy(coins) then (if span.Some? then Some(Untagged(span.value)) else None)
      else span;
    Outcome(coins, item)
  }

  /** `Parser.beg` as its no-coin branch evidently means it: the item is read
      exactly as crime reads it, tag removed in both branches. */
  function BegIntended(description: string): CommandResult {
    Crime(description)
  }

  /** `Parser.crime`: as beg, but the tag is removed in both branches. */
  function Crime(description: string): CommandResult {
    var t := RemoveAll(description, ",");
    var coins := CoinAmount(t);
    var span := ItemSpan(t, coins);
    Outcome(coins, if span.Some? then Some(Untagged(span.value)) else None)
  }

  /** The item search reads: the quantity of the first `**Nx`
      and the name in the first `**Nx name**` span with its first two words
      dropped. The name is `None` when only the quantity was found. */
  function SearchItem(t: string): (Option<nat>, Option<string>) {
    match Nth(QuantityMark, t, 0)
    case None => (None, None)
    case Some(mark) =>
      match ParseInt(RemoveAll(RemoveAll(mark, "**"), "x"))
      case None => (None, None)
      case Some(amount) =>
        match Nth(QuantityLine, t, 0)
        case None => (Some(amount), None)
        case Some(line) => (Some(amount), Some(DropPieces(RemoveAll(line, "**"), ' ', 2)))
  }

  /** `Parser.search`. */
  function Search(description: string): CommandResult {
    var t := RemoveAll(description, ",");
    var (amount, item) := SearchItem(t);
    var coins := CoinAmount(t);
    var gain := Tally(
      if Truthy(coins) then coins else None,
      if Truthy(amount) then Some([Entry(amount.value, item)]) else None,
      None);
    CommandResult(coins.Some?, None, Some(gain), Some(Empty), None)
  }

  /** `Parser.common1`, shared by fish, hunt and dig. */
  function Common1(description: string): CommandResult {
    var t := RemoveAll(description, ",");
    match Nth(Starred, t, 0)
    case None => CommandResult(false, None, Some(Empty), Some(Empty), None)
    case Some(m) =>
      var rest := DropPieces(RemoveAll(m, "**"), ' ', 1);
      var gain := Tally(None, Listed(rest), None);
      CommandResult(true, None, Some(gain), Some(Empty), None)
  }

  /** Python `xs.index(x)`, `None` where it raises `ValueError`. */
  function IndexIn(xs: seq<string>, x: string): (r: Option<nat>)
    ensures r.Some? ==> r.value < |xs| && xs[r.value] == x && x !in xs[..r.value]
    ensures r.None? ==> x !in xs
    decreases |xs|
  {
    if xs == [] then None
    else if xs[0] == x then Some(0)
    else
      match IndexIn(xs[1..], x)
      case None => None
      case Some(i) =>
        assert xs[..i + 1] == [xs[0]] + xs[1..][..i];
        Some(i + 1)
  }

  /** An item line's `{amount: name}`: the amount from its first `Nx`, the
      name from its sixth space-separated piece on. */
  function ItemEntry(line: string): Option<Entry> {
    match Nth(CountMark, line, 0)
    case None => None
    case Some(mark) =>
      match ParseInt(RemoveAll(mark, "x"))
      case None => None
      case Some(amount) => Some(Entry(amount, Some(DropPieces(line, ' ', 5))))
  }

  /** One pass of the body of the loop in `Parser.postmemes`: a line with
      `⏣` sets the coins to its first integer, any other line with `<:`
      appends its entry, and other lines change nothing. `None` where the
      source raises. */
  function ScanLine(line: string, gain: Tally): Option<Tally> {
    if Contains(line, "⏣") then
      match FirstInt(line)
      case None => None
      case Some(v) => Some(gain.(coins := Some(v)))
    else if Contains(line, "<:") then
      match ItemEntry(line)
      case None => None
      case Some(entry) => Some(gain.(items := Some(gain.items.GetOr([]) + [entry])))
    else Some(gain)
  }

  /** The loop of `Parser.postmemes` over the kept lines, stopping at the
      first line on which it raises. */
  function ScanLines(lines: seq<string>, gain: Tally): Option<Tally>
    decreases |lines|
  {
    if lines == [] then Some(gain)
    else
      match ScanLine(lines[0], gain)
      case None => None
      case Some(next) => ScanLines(lines[1..], next)
  }

  /** The lines `Parser.postmemes` scans: the fourth line on, from the exact
      `**You Received:**` line if there is one. */
  function PostmemesLines(description: string): seq<string> {
    var lines := Drop(Split(RemoveAll(description, ","), '\n'), 3);
    match IndexIn(lines, "**You Received:**")
    case Some(i) => lines[i..]
    case None => lines
  }

  /** `Parser.postmemes`. */
  function Postmemes(description: string): Option<CommandResult> {
    if Contains(description, "**You Received") then
      match ScanLines(PostmemesLines(description), Empty)
      case None => None
      case Some(gain) => Some(CommandResult(true, None, Some(gain), Some(Empty), None))
    else Some(CommandResult(false, None, Some(Empty), Some(Empty), None))
  }

  /** `Parser.buy`: the item and quantity are the caller's; the price is the
      first integer of the second bold span. */
  function Buy(description: string, item: string, quantity: int): Option<CommandResult> {
    if Contains(description, "bought") && Contains(description, "and paid") then
      var t := RemoveAll(description, ",");
      match Nth(Bold, t, 1)
      case None => None
      case Some(span) =>
        match FirstInt(span)
        case None => None
        case Some(paid) =>
          Some(CommandResult(true, None,
            Some(Tally(None, None, Some(Entry(quantity, Some(item))))),
            Some(Tally(Some(paid), None, None)), None))
    else Some(CommandResult(false, None, None, None, None))
  }

  /** `Parser.sell`: the item and quantity are the caller's; the price is the
      first integer of the first bold span. */
  function Sell(description: string, item: string, quantity: int): Option<CommandResult> {
    if Contains(description, "sold") && Contains(description, "and got paid") then
      var t := RemoveAll(description, ",");
      match Nth(Bold, t, 0)
      case None => None
      case Some(span) =>
        match FirstInt(span)
        case None => None
        case Some(earned) =>
          Some(CommandResult(true, None,
            Some(Tally(Some(earned), None, None)),
            Some(Tally(None, None, Some(Entry(quantity, Some(item))))), None))
    else Some(CommandResult(false, None, None, None, None))
  }

  /** `Parser.cooldown` with the clock as a parameter: the first integer of
      the first `<...>` tag is the time the cooldown ends, in seconds since
      the epoch, and `now` is the current time on the same scale. */
  function Cooldown(description: string, now: int): Option<CommandResult> {
    match Nth(Tag, description, 0)
    case None => None
    case Some(tag) =>
      match FirstInt(tag)
      case None => None
      case Some(ends) => Some(CommandResult(false, None, Some(Empty), Some(Empty), Some(Difference(ends, now))))
  }

  /** The seconds from `now` until `ends`. */
  function Difference(ends: int, now: int): int {
    ends - now
  }

  /** `Parser.check_cooldown`, with its repeated test kept. */
  predicate CheckCooldown(description: string) {
    Contains(description, "seconds") && Contains(description, "command") &&
    Contains(description, "cooldown is") && Contains(description, "seconds")
  }
}
