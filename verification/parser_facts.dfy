/** What the extractors promise: where coins and items are read from, when
    a reply counts as a success, and which parts of a result come from the
    caller rather than from the text. */
module ParserFacts {
  import opened Wrappers
  import opened Text
  import opened Regex
  import opened Parser

  /** A bold coin amount is also a bold span, with the same end. */
  lemma CoinIsBold(t: string, k: nat, e: nat)
    requires MatchAt(Coin, t, k) == Some(e)
    ensures MatchAt(Bold, t, k) == Some(e)
  {
    CoinInside(t, k, e);
    LazyCloseSpec(t, k + 2, "**");
    match LazyClose(t, k + 2, "**")
    case None =>
    case Some(j) =>
      assert t[j..j + 2][0] == t[j];
  }

  /** Inside a coin amount, between its opening and closing `**`, there is
      neither a star nor a line break. */
  lemma CoinInside(t: string, k: nat, e: nat)
    requires MatchAt(Coin, t, k) == Some(e)
    ensures StartsAt(t, k, "**") && StartsAt(t, e - 2, "**") && k + 2 <= e - 2
    ensures forall m :: k + 2 <= m < e - 2 ==> t[m] != '*' && t[m] != '\n'
  {
    var n := DigitRun(t, k + 4);
    DigitRunSpec(t, k + 4);
    assert t[k..k + 2] == "**" by {
      assert t[k..k + 4][..2] == t[k..k + 2];
    }
    assert t[k + 2] == '⏣' && t[k + 3] == ' ' by {
      assert t[k..k + 4][2] == t[k + 2];
      assert t[k..k + 4][3] == t[k + 3];
    }
  }

  /** Every coin amount starts a bold span, so a text without bold spans has
      no coin amount. */
  lemma NoBoldNoCoin(t: string)
    requires NoMatchIn(Bold, t, 0, |t|)
    ensures NoMatchIn(Coin, t, 0, |t|)
  {
    forall k: nat | MatchAt(Coin, t, k).Some? ensures MatchAt(Bold, t, k).Some? {
      CoinIsBold(t, k, MatchAt(Coin, t, k).value);
    }
  }

  /** Beg, crime and search record the same coins: the amount of the first
      bold coin amount, and only when it is not zero; none of them records
      a loss. */
  lemma CoinsRecorded(d: string)
    ensures var t := RemoveAll(d, ",");
      var c := Crime(d).gain.value.coins;
      Beg(d).gain.value.coins == c && Search(d).gain.value.coins == c &&
      Beg(d).loss == Some(Empty) && Crime(d).loss == Some(Empty) && Search(d).loss == Some(Empty) &&
      (NoMatchIn(Coin, t, 0, |t|) ==> c.None?) &&
      forall k: nat :: Leftmost(Coin, t, 0, k) ==>
        c == if DigitsValue(CoinDigitsAt(t, k)) == 0 then None else Some(DigitsValue(CoinDigitsAt(t, k)))
  {
    CoinAmountSpec(RemoveAll(d, ","));
  }

  /** Beg and crime succeed exactly when the text holds a bold span: a coin
      amount is one, and without a coin amount the first bold span is the
      item. */
  lemma CrimeSuccess(d: string)
    ensures var t := RemoveAll(d, ",");
      Crime(d).success <==> !NoMatchIn(Bold, t, 0, |t|)
    ensures Beg(d).success == Crime(d).success
  {
    var t := RemoveAll(d, ",");
    CoinAmountSpec(t);
    NthNone(Bold, t);
    if NoMatchIn(Bold, t, 0, |t|) {
      NoBoldNoCoin(t);
    } else if CoinAmount(t).Some? {
      var k: nat :| k < |t| && MatchAt(Coin, t, k).Some?;
      CoinIsBold(t, k, MatchAt(Coin, t, k).value);
    }
  }

  /** Without a non-zero coin amount, crime's item is the first bold span
      with its tag removed, and beg's is that span as it stands. */
  lemma ItemWithoutCoins(d: string, k: nat)
    requires !Truthy(CoinAmount(RemoveAll(d, ",")))
    requires Leftmost(Bold, RemoveAll(d, ","), 0, k)
    ensures var t := RemoveAll(d, ",");
      var span := Group(Bold, t, k, MatchAt(Bold, t, k).value);
      Crime(d).gain.value.items == Listed(Untagged(span)) &&
      Beg(d).gain.value.items == Listed(span)
  {
    FirstMatch(Bold, RemoveAll(d, ","), k);
  }

  /** Without any bold span (the source's first-span lookup raises and the
      error is swallowed) beg and crime fail with empty gain and loss. */
  lemma NoBoldResult(d: string)
    ensures var t := RemoveAll(d, ",");
      NoMatchIn(Bold, t, 0, |t|) ==>
        Crime(d) == CommandResult(false, None, Some(Empty), Some(Empty), None) && Beg(d) == Crime(d)
  {
    var t := RemoveAll(d, ",");
    if NoMatchIn(Bold, t, 0, |t|) {
      NoBoldNoCoin(t);
      CoinAmountSpec(t);
      NthNone(Bold, t);
    }
  }

  /** With a non-zero coin amount, the item is the second bold span, tag
      removed, for beg and crime alike, wherever the amount stands. */
  lemma ItemAfterCoins(d: string, k1: nat, e1: nat, k2: nat)
    requires Truthy(CoinAmount(RemoveAll(d, ",")))
    requires Leftmost(Bold, RemoveAll(d, ","), 0, k1) && MatchAt(Bold, RemoveAll(d, ","), k1) == Some(e1)
    requires Leftmost(Bold, RemoveAll(d, ","), e1, k2)
    ensures var t := RemoveAll(d, ",");
      var span := Group(Bold, t, k2, MatchAt(Bold, t, k2).value);
      Crime(d).gain.value.items == Listed(Untagged(span)) &&
      Beg(d).gain.value.items == Listed(Untagged(span))
  {
    NthSecond(Bold, RemoveAll(d, ","), k1, e1, k2);
  }

  /** With a non-zero coin amount and a single bold span, nothing but the
      coins is recorded. */
  lemma NoItemAfterCoins(d: string, k1: nat, e1: nat)
    requires Truthy(CoinAmount(RemoveAll(d, ",")))
    requires Leftmost(Bold, RemoveAll(d, ","), 0, k1) && MatchAt(Bold, RemoveAll(d, ","), k1) == Some(e1)
    requires NoMatchIn(Bold, RemoveAll(d, ","), e1, |RemoveAll(d, ",")|)
    ensures Crime(d).gain.value.items.None? && Beg(d).gain.value.items.None?
    ensures Crime(d).success && Beg(d).success
  {
    NthNoSecond(Bold, RemoveAll(d, ","), k1, e1);
  }

  /** When a non-zero amount was read, beg and crime give the same result. */
  lemma BegAgreesWithCrime(d: string)
    requires Truthy(CoinAmount(RemoveAll(d, ",")))
    ensures Beg(d) == Crime(d)
  {
  }

  /** A tag at the head of an item is removed together with the space after
      it, provided the tag has no `>` or line break and does not recur in
      the name. */
  lemma UntaggedPrefix(tag: string, name: string)
    requires '>' !in tag && '\n' !in tag
    requires !Contains(name, "<" + tag + "> ")
    ensures Untagged("<" + tag + "> " + name) == name
  {
    var pat := "<" + tag + "> ";
    var item := pat + name;
    TagHead(tag, item);
    assert item[0] == '<';
    assert StartsAt(item, 0, pat);
    assert item[|pat|..] == name;
    RemoveAllAbsent(name, pat);
  }

  /** The first tag of a text that starts with `<tag>` is `tag`. */
  lemma TagHead(tag: string, item: string)
    requires '>' !in tag && '\n' !in tag
    requires StartsAt(item, 0, "<" + tag + ">")
    ensures Nth(Tag, item, 0) == Some(tag)
  {
    var close := |tag| + 1;
    assert item[0] == '<' && item[close] == '>' by {
      assert item[..close + 1] == "<" + tag + ">";
    }
    assert item[1..close] == tag by {
      assert item[..close + 1][1..close] == item[1..close];
    }
    assert StartsAt(item, close, ">") by {
      assert item[close..close + 1] == [item[close]];
    }
    LazyCloseSpec(item, 1, ">");
    forall m | 1 <= m < close ensures !StartsAt(item, m, ">") && item[m] != '\n' {
      assert item[m] == tag[m - 1];
      assert item[m..m + 1] == [item[m]];
    }
    assert LineFree(item, 1, close);
    assert StartsAt(item, 0, "<") by {
      assert item[0..1] == [item[0]];
    }
    assert TagAt(item, 0) == Some(close + 1);
    FirstMatch(Tag, item, 0);
  }

  /** The beg defect: without coins, a tagged first bold span is recorded
      with its tag, where crime, and beg as intended, record only the name. */
  lemma BegKeepsTag(d: string, k: nat, tag: string, name: string)
    requires !Truthy(CoinAmount(RemoveAll(d, ",")))
    requires Leftmost(Bold, RemoveAll(d, ","), 0, k)
    requires Group(Bold, RemoveAll(d, ","), k, MatchAt(Bold, RemoveAll(d, ","), k).value) == "<" + tag + "> " + name
    requires '>' !in tag && '\n' !in tag && !Contains(name, "<" + tag + "> ")
    ensures Beg(d).gain.value.items == Listed("<" + tag + "> " + name)
    ensures Beg(d) != BegIntended(d)
  {
    ItemWithoutCoins(d, k);
    UntaggedPrefix(tag, name);
    assert |"<" + tag + "> " + name| > |name|;
  }

  /** Beg as intended removes the tag in the no-coin branch too. */
  lemma BegIntendedStripsTag(d: string, k: nat, tag: string, name: string)
    requires !Truthy(CoinAmount(RemoveAll(d, ",")))
    requires Leftmost(Bold, RemoveAll(d, ","), 0, k)
    requires Group(Bold, RemoveAll(d, ","), k, MatchAt(Bold, RemoveAll(d, ","), k).value) == "<" + tag + "> " + name
    requires '>' !in tag && '\n' !in tag && !Contains(name, "<" + tag + "> ")
    ensures BegIntended(d).gain.value.items == Listed(name)
  {
    ItemWithoutCoins(d, k);
    UntaggedPrefix(tag, name);
  }

  /** Deleting the `**` and `x` around a run of digits leaves the digits. */
  lemma MarkDigits(ds: string)
    requires ds != [] && AllDigits(ds)
    ensures RemoveAll(RemoveAll("**" + ds + "x", "**"), "x") == ds
    ensures RemoveAll(ds + "x", "x") == ds
  {
    var m := "**" + ds + "x";
    assert StartsAt(m, 0, "**");
    assert m[2..] == ds + "x";
    NoStar(ds + "x");
    RemoveAllAbsent(ds + "x", "**");
    DigitsThenX(ds);
  }

  lemma NoStar(s: string)
    requires forall i :: 0 <= i < |s| ==> s[i] != '*'
    ensures !Contains(s, "**")
  {
    forall k: nat | k + 2 <= |s| ensures !StartsAt(s, k, "**") {
      assert s[k..k + 2][0] == s[k];
    }
    ContainsIff(s, "**");
  }

  lemma {:induction false} DigitsThenX(ds: string)
    requires AllDigits(ds)
    ensures RemoveAll(ds + "x", "x") == ds
    decreases |ds|
  {
    var s := ds + "x";
    if ds == [] {
      assert StartsAt(s, 0, "x");
      assert s[1..] == [];
    } else {
      assert !StartsAt(s, 0, "x") by {
        assert s[0..1] == [ds[0]];
      }
      assert s[1..] == ds[1..] + "x";
      DigitsThenX(ds[1..]);
      assert ds == [ds[0]] + ds[1..];
    }
  }

  /** The first `**Nx` mark reads as its count. */
  lemma MarkRead(t: string, k: nat)
    requires MatchAt(QuantityMark, t, k).Some?
    ensures var m := t[k..MatchAt(QuantityMark, t, k).value];
      ParseInt(RemoveAll(RemoveAll(m, "**"), "x")) == Some(RunValue(t, k + 2))
  {
    var e := MatchAt(QuantityMark, t, k).value;
    var ds := t[k + 2..e - 1];
    MarkShape(t, k, e);
    MarkDigits(ds);
  }

  lemma MarkShape(t: string, k: nat, e: nat)
    requires MatchAt(QuantityMark, t, k) == Some(e)
    ensures k + 2 <= e - 1 && t[k..e] == "**" + t[k + 2..e - 1] + "x"
    ensures t[k + 2..e - 1] != [] && AllDigits(t[k + 2..e - 1])
  {
    DigitRunSpec(t, k + 2);
    var ds := t[k + 2..e - 1];
    forall i | 0 <= i < |ds| ensures IsDigit(ds[i]) {
      assert ds[i] == t[k + 2 + i];
    }
    assert t[k..k + 2] == "**";
    assert t[e - 1..e] == "x";
  }

  /** Search's item: one entry whose count is the count read, when that is
      not zero, named by the first `**Nx ...**` line from its third word on,
      its `**` deleted, or with no name when there is no such line. */
  lemma SearchEntry(d: string, n: nat)
    requires SearchItem(RemoveAll(d, ",")).0 == Some(n)
    ensures var t := RemoveAll(d, ",");
      var items := Search(d).gain.value.items;
      var line := Nth(QuantityLine, t, 0);
      (items.Some? <==> n != 0) &&
      (items.Some? ==>
        |items.value| == 1 && items.value[0].quantity == n &&
        (items.value[0].name.None? <==> line.None?) &&
        (line.Some? ==> items.value[0].name == Some(After(After(RemoveAll(line.value, "**"), ' '), ' '))))
  {
    var t := RemoveAll(d, ",");
    if Nth(QuantityLine, t, 0).Some? {
      var line := RemoveAll(Nth(QuantityLine, t, 0).value, "**");
      DropPiecesStep(line, ' ', 1);
      DropOnePiece(After(line, ' '), ' ');
    }
  }

  /** The count search reads is the one in the first `**Nx` mark. */
  lemma SearchCount(t: string, k: nat)
    requires Leftmost(QuantityMark, t, 0, k)
    ensures SearchItem(t).0 == Some(RunValue(t, k + 2))
  {
    FirstMatch(QuantityMark, t, k);
    MarkRead(t, k);
  }

  /** Search succeeds exactly when a coin amount is present. */
  lemma SearchSuccess(d: string)
    ensures Search(d).success <==> !NoMatchIn(Coin, RemoveAll(d, ","), 0, |RemoveAll(d, ",")|)
  {
    CoinAmountSpec(RemoveAll(d, ","));
  }

  /** Search records an item exactly when the first `**Nx` mark has a
      non-zero count: one entry with that count, named by the first
      `**Nx ...**` line from its third word on, or with no name when there
      is no such line. */
  lemma SearchItems(d: string, k: nat)
    requires Leftmost(QuantityMark, RemoveAll(d, ","), 0, k)
    ensures var t := RemoveAll(d, ",");
      var items := Search(d).gain.value.items;
      var n := RunValue(t, k + 2);
      (items.Some? <==> n != 0) &&
      (items.Some? ==>
        |items.value| == 1 && items.value[0].quantity == n &&
        (items.value[0].name.None? <==> NoMatchIn(QuantityLine, t, 0, |t|)) &&
        (forall kl: nat :: Leftmost(QuantityLine, t, 0, kl) ==>
          items.value[0].name == Some(After(After(RemoveAll(t[kl..MatchAt(QuantityLine, t, kl).value], "**"), ' '), ' '))))
  {
    var t := RemoveAll(d, ",");
    SearchCount(t, k);
    SearchEntry(d, RunValue(t, k + 2));
    NthNone(QuantityLine, t);
    forall kl: nat | Leftmost(QuantityLine, t, 0, kl)
      ensures Nth(QuantityLine, t, 0) == Some(t[kl..MatchAt(QuantityLine, t, kl).value])
    {
      FirstMatch(QuantityLine, t, kl);
    }
  }

  /** Without a `**Nx` mark search records no item. */
  lemma SearchNoItems(d: string)
    requires NoMatchIn(QuantityMark, RemoveAll(d, ","), 0, |RemoveAll(d, ",")|)
    ensures Search(d).gain.value.items.None?
  {
    NthNone(QuantityMark, RemoveAll(d, ","));
  }

  /** Common1 succeeds exactly when a `**...*` span exists and never records
      a loss; its item is that span, its `**` deleted, from its second word
      on, and nothing when that is empty. */
  lemma Common1Result(d: string)
    ensures var t := RemoveAll(d, ",");
      Common1(d).success <==> !NoMatchIn(Starred, t, 0, |t|)
    ensures var t := RemoveAll(d, ",");
      NoMatchIn(Starred, t, 0, |t|) ==> Common1(d).gain == Some(Empty)
    ensures Common1(d).loss == Some(Empty)
    ensures var t := RemoveAll(d, ",");
      forall k: nat :: Leftmost(Starred, t, 0, k) ==>
        Common1(d).gain == Some(Tally(None, Listed(After(RemoveAll(t[k..MatchAt(Starred, t, k).value], "**"), ' ')), None))
  {
    var t := RemoveAll(d, ",");
    NthNone(Starred, t);
    forall k: nat | Leftmost(Starred, t, 0, k)
      ensures Common1(d).gain == Some(Tally(None, Listed(After(RemoveAll(t[k..MatchAt(Starred, t, k).value], "**"), ' ')), None))
    {
      FirstMatch(Starred, t, k);
      DropOnePiece(RemoveAll(t[k..MatchAt(Starred, t, k).value], "**"), ' ');
    }
  }

  /** Buy succeeds exactly when the reply says it bought and paid; the
      bought item and quantity are the caller's; on failure there is neither
      gain nor loss. */
  lemma BuyResult(d: string, item: string, quantity: int)
    ensures var r := Buy(d, item, quantity);
      r.Some? ==> (r.value.success <==> Contains(d, "bought") && Contains(d, "and paid"))
    ensures var r := Buy(d, item, quantity);
      r.Some? && r.value.success ==>
        r.value.gain == Some(Tally(None, None, Some(Entry(quantity, Some(item))))) &&
        r.value.loss.Some? && r.value.loss.value.coins.Some? &&
        r.value.loss.value.items.None? && r.value.loss.value.bare.None?
    ensures var r := Buy(d, item, quantity);
      r.Some? && !r.value.success ==> r.value.gain.None? && r.value.loss.None?
    ensures !(Contains(d, "bought") && Contains(d, "and paid")) ==> Buy(d, item, quantity).Some?
  {
  }

  /** The price paid is the first integer of the second bold span; buy fails
      (the source raises) when there is no second span or it has no digit. */
  lemma BuyPrice(d: string, item: string, quantity: int, k1: nat, e1: nat, k2: nat)
    requires Contains(d, "bought") && Contains(d, "and paid")
    requires Leftmost(Bold, RemoveAll(d, ","), 0, k1) && MatchAt(Bold, RemoveAll(d, ","), k1) == Some(e1)
    requires Leftmost(Bold, RemoveAll(d, ","), e1, k2)
    ensures var t := RemoveAll(d, ",");
      var price := FirstInt(Group(Bold, t, k2, MatchAt(Bold, t, k2).value));
      Buy(d, item, quantity).Some? == price.Some? &&
      (price.Some? ==> Buy(d, item, quantity).value.loss == Some(Tally(price, None, None)))
  {
    NthSecond(Bold, RemoveAll(d, ","), k1, e1, k2);
  }

  /** Buy with exactly one bold span raises. */
  lemma BuyNoPrice(d: string, item: string, quantity: int, k1: nat, e1: nat)
    requires Contains(d, "bought") && Contains(d, "and paid")
    requires Leftmost(Bold, RemoveAll(d, ","), 0, k1) && MatchAt(Bold, RemoveAll(d, ","), k1) == Some(e1)
    requires NoMatchIn(Bold, RemoveAll(d, ","), e1, |RemoveAll(d, ",")|)
    ensures Buy(d, item, quantity).None?
  {
    NthNoSecond(Bold, RemoveAll(d, ","), k1, e1);
  }

  /** Buy without any bold span raises as well. */
  lemma BuyNoBold(d: string, item: string, quantity: int)
    requires Contains(d, "bought") && Contains(d, "and paid")
    requires NoMatchIn(Bold, RemoveAll(d, ","), 0, |RemoveAll(d, ",")|)
    ensures Buy(d, item, quantity).None?
  {
    FindAllEmpty(Bold, RemoveAll(d, ","));
  }

  /** What buy reads from the text does not depend on the caller's item and
      quantity. */
  lemma BuyIgnoresItem(d: string, item1: string, quantity1: int, item2: string, quantity2: int)
    ensures Buy(d, item1, quantity1).Some? == Buy(d, item2, quantity2).Some?
    ensures Buy(d, item1, quantity1).Some? ==>
      Buy(d, item1, quantity1).value.success == Buy(d, item2, quantity2).value.success &&
      Buy(d, item1, quantity1).value.loss == Buy(d, item2, quantity2).value.loss
  {
  }

  /** Sell succeeds exactly when the reply says it sold and got paid; the
      sold item and quantity are the caller's; on failure there is neither
      gain nor loss. */
  lemma SellResult(d: string, item: string, quantity: int)
    ensures var r := Sell(d, item, quantity);
      r.Some? ==> (r.value.success <==> Contains(d, "sold") && Contains(d, "and got paid"))
    ensures var r := Sell(d, item, quantity);
      r.Some? && r.value.success ==>
        r.value.loss == Some(Tally(None, None, Some(Entry(quantity, Some(item))))) &&
        r.value.gain.Some? && r.value.gain.value.coins.Some? &&
        r.value.gain.value.items.None? && r.value.gain.value.bare.None?
    ensures var r := Sell(d, item, quantity);
      r.Some? && !r.value.success ==> r.value.gain.None? && r.value.loss.None?
    ensures !(Contains(d, "sold") && Contains(d, "and got paid")) ==> Sell(d, item, quantity).Some?
  {
  }

  /** The amount earned is the first integer of the first bold span; sell
      fails (the source raises) when that span has no digit. */
  lemma SellPrice(d: string, item: string, quantity: int, k: nat)
    requires Contains(d, "sold") && Contains(d, "and got paid")
    requires Leftmost(Bold, RemoveAll(d, ","), 0, k)
    ensures var t := RemoveAll(d, ",");
      var price := FirstInt(Group(Bold, t, k, MatchAt(Bold, t, k).value));
      Sell(d, item, quantity).Some? == price.Some? &&
      (price.Some? ==> Sell(d, item, quantity).value.gain == Some(Tally(price, None, None)))
  {
    FirstMatch(Bold, RemoveAll(d, ","), k);
  }

  /** Sell without any bold span raises. */
  lemma SellNoPrice(d: string, item: string, quantity: int)
    requires Contains(d, "sold") && Contains(d, "and got paid")
    requires NoMatchIn(Bold, RemoveAll(d, ","), 0, |RemoveAll(d, ",")|)
    ensures Sell(d, item, quantity).None?
  {
    NthNone(Bold, RemoveAll(d, ","));
  }

  /** What sell reads from the text does not depend on the caller's item and
      quantity. */
  lemma SellIgnoresItem(d: string, item1: string, quantity1: int, item2: string, quantity2: int)
    ensures Sell(d, item1, quantity1).Some? == Sell(d, item2, quantity2).Some?
    ensures Sell(d, item1, quantity1).Some? ==>
      Sell(d, item1, quantity1).value.success == Sell(d, item2, quantity2).value.success &&
      Sell(d, item1, quantity1).value.gain == Sell(d, item2, quantity2).value.gain
  {
  }

  /** The cooldown indicator: the end time is the first integer of the first
      tag of the unaltered text, and the result is an unsuccessful one with
      empty gain and loss whose cooldown is the time left until then. */
  lemma CooldownResult(d: string, now: int, k: nat)
    requires Leftmost(Tag, d, 0, k)
    ensures var ends := FirstInt(Group(Tag, d, k, MatchAt(Tag, d, k).value));
      Cooldown(d, now).Some? == ends.Some? &&
      (ends.Some? ==> Cooldown(d, now) == Some(CommandResult(false, None, Some(Empty), Some(Empty), Some(Difference(ends.value, now)))))
  {
    FirstMatch(Tag, d, k);
    CooldownFrom(d, now, Group(Tag, d, k, MatchAt(Tag, d, k).value));
  }

  /** Given the first tag, the indicator fails exactly when the tag holds no
      digit, and otherwise reports the time left until its first integer. */
  lemma CooldownFrom(d: string, now: int, tag: string)
    requires Nth(Tag, d, 0) == Some(tag)
    ensures Cooldown(d, now).Some? == FirstInt(tag).Some?
    ensures FirstInt(tag).Some? ==>
      Cooldown(d, now) == Some(CommandResult(false, None, Some(Empty), Some(Empty), Some(Difference(FirstInt(tag).value, now))))
  {
  }

  /** Without a tag the cooldown indicator raises. */
  lemma CooldownNoTag(d: string, now: int)
    requires NoMatchIn(Tag, d, 0, |d|)
    ensures Cooldown(d, now).None?
  {
    NthNone(Tag, d);
  }

  /** Read later, the same indicator reports as much less time left. */
  lemma CooldownLater(d: string, now: int, delay: int)
    ensures Cooldown(d, now + delay).Some? == Cooldown(d, now).Some?
    ensures Cooldown(d, now).Some? ==>
      Cooldown(d, now + delay).value.cooldown.value == Cooldown(d, now).value.cooldown.value - delay
  {
  }

  /** The cooldown test holds exactly when the text contains "seconds",
      "command" and "cooldown is". */
  lemma CheckCooldownIff(d: string)
    ensures CheckCooldown(d) <==>
      (exists i: nat :: StartsAt(d, i, "seconds")) &&
      (exists i: nat :: StartsAt(d, i, "command")) &&
      (exists i: nat :: StartsAt(d, i, "cooldown is"))
  {
    ContainsIff(d, "seconds");
    ContainsIff(d, "command");
    ContainsIff(d, "cooldown is");
  }

  /** A postmemes line that sets the coins. */
  predicate IsCoinLine(line: string) {
    Contains(line, "⏣")
  }

  /** A postmemes line that adds an item. */
  predicate IsItemLine(line: string) {
    !Contains(line, "⏣") && Contains(line, "<:")
  }

  /** A line on which the postmemes loop raises: a coin line without a
      digit, or an item line without an `Nx` count. */
  predicate LineFails(line: string) {
    (IsCoinLine(line) && FirstInt(line).None?) || (IsItemLine(line) && ItemEntry(line).None?)
  }

  lemma CountShape(line: string, k: nat, e: nat)
    requires MatchAt(CountMark, line, k) == Some(e)
    ensures k < e - 1 && line[k..e] == line[k..e - 1] + "x"
    ensures AllDigits(line[k..e - 1])
  {
    DigitRunSpec(line, k);
    var ds := line[k..e - 1];
    forall i | 0 <= i < |ds| ensures IsDigit(ds[i]) {
      assert ds[i] == line[k + i];
    }
    assert line[e - 1..e] == "x";
  }

  /** An item line's entry: the count of its leftmost `Nx` mark, named by
      the line from its sixth space-separated piece on. */
  lemma ItemEntrySpec(line: string, k: nat)
    requires Leftmost(CountMark, line, 0, k)
    ensures ItemEntry(line) == Some(Entry(RunValue(line, k), Some(DropPieces(line, ' ', 5))))
  {
    var e := MatchAt(CountMark, line, k).value;
    FirstMatch(CountMark, line, k);
    CountRead(line, k, e);
  }

  /** An `Nx` mark with its `x` deleted reads as its count. */
  lemma CountRead(line: string, k: nat, e: nat)
    requires MatchAt(CountMark, line, k) == Some(e)
    ensures ParseInt(RemoveAll(line[k..e], "x")) == Some(RunValue(line, k))
  {
    CountShape(line, k, e);
    MarkDigits(line[k..e - 1]);
    assert e - 1 == k + DigitRun(line, k);
  }

  /** An item line has no entry (the source raises) exactly when it has no
      `Nx` mark. */
  lemma ItemEntryNone(line: string)
    ensures ItemEntry(line).None? <==> NoMatchIn(CountMark, line, 0, |line|)
  {
    NthNone(CountMark, line);
    FindAllEmpty(CountMark, line);
    if FindAll(CountMark, line) != [] {
      FindAllFirst(CountMark, line);
      ItemEntrySpec(line, FindAll(CountMark, line)[0].start);
    }
  }

  /** The item lines among `lines`, in order. */
  function ItemLines(lines: seq<string>): (r: seq<string>)
    ensures |r| <= |lines|
  {
    if lines == [] then []
    else if IsItemLine(lines[0]) then [lines[0]] + ItemLines(lines[1..])
    else ItemLines(lines[1..])
  }

  /** The postmemes loop raises exactly when one of its lines fails. */
  lemma {:induction false} ScanFails(lines: seq<string>, gain: Tally)
    ensures ScanLines(lines, gain).Some? <==> forall i :: 0 <= i < |lines| ==> !LineFails(lines[i])
    decreases |lines|
  {
    if lines != [] {
      var line := lines[0];
      assert ScanLine(line, gain).None? <==> LineFails(line);
      if ScanLine(line, gain).Some? {
        ScanFails(lines[1..], ScanLine(line, gain).value);
      }
      forall i | 1 <= i < |lines| ensures lines[i] == lines[1..][i - 1] {
      }
    }
  }

  /** The coins postmemes records come from the last coin line; without one
      they are what they were. */
  lemma {:induction false} ScanCoins(lines: seq<string>, gain: Tally)
    requires ScanLines(lines, gain).Some?
    ensures (forall i :: 0 <= i < |lines| ==> !IsCoinLine(lines[i])) ==>
      ScanLines(lines, gain).value.coins == gain.coins
    ensures forall i ::
      (0 <= i < |lines| && IsCoinLine(lines[i]) && forall j :: i < j < |lines| ==> !IsCoinLine(lines[j])) ==>
        ScanLines(lines, gain).value.coins == FirstInt(lines[i])
    decreases |lines|
  {
    if lines != [] {
      var line := lines[0];
      var next := ScanLine(line, gain).value;
      assert next.coins == if IsCoinLine(line) then FirstInt(line) else gain.coins;
      ScanCoins(lines[1..], next);
      forall i | 0 <= i < |lines| && IsCoinLine(lines[i]) && (forall j :: i < j < |lines| ==> !IsCoinLine(lines[j]))
        ensures ScanLines(lines, gain).value.coins == FirstInt(lines[i])
      {
        if i > 0 {
          assert lines[i] == lines[1..][i - 1];
          forall j | i - 1 < j < |lines| - 1 ensures !IsCoinLine(lines[1..][j]) {
            assert lines[1..][j] == lines[j + 1];
          }
        } else {
          forall j | 0 <= j < |lines| - 1 ensures !IsCoinLine(lines[1..][j]) {
            assert lines[1..][j] == lines[j + 1];
          }
        }
      }
      if forall i :: 0 <= i < |lines| ==> !IsCoinLine(lines[i]) {
        forall j | 0 <= j < |lines| - 1 ensures !IsCoinLine(lines[1..][j]) {
          assert lines[1..][j] == lines[j + 1];
        }
      }
    }
  }

  /** Reference reading of the items of a list of lines: the entry `read`
      gives for each item line, in line order, or `None` when an item line
      has none. */
  function Entries(read: string -> Option<Entry>, lines: seq<string>): Option<seq<Entry>>
    decreases |lines|
  {
    if lines == [] then Some([])
    else
      var rest := Entries(read, lines[1..]);
      if !IsItemLine(lines[0]) then rest
      else if read(lines[0]).Some? && rest.Some? then Some([read(lines[0]).value] + rest.value)
      else None
  }

  /** The reference reading holds one entry per item line: the entry read
      from that line. */
  lemma {:induction false} EntriesOfItemLines(read: string -> Option<Entry>, lines: seq<string>)
    requires Entries(read, lines).Some?
    ensures |Entries(read, lines).value| == |ItemLines(lines)|
    ensures forall j :: 0 <= j < |ItemLines(lines)| ==> read(ItemLines(lines)[j]) == Some(Entries(read, lines).value[j])
    decreases |lines|
  {
    if lines != [] {
      EntriesOfItemLines(read, lines[1..]);
      if IsItemLine(lines[0]) {
        var rest := Entries(read, lines[1..]).value;
        assert Entries(read, lines).value == [read(lines[0]).value] + rest;
        assert ItemLines(lines) == [lines[0]] + ItemLines(lines[1..]);
        forall j | 0 < j < |ItemLines(lines)| ensures read(ItemLines(lines)[j]) == Some(Entries(read, lines).value[j]) {
          assert ItemLines(lines)[j] == ItemLines(lines[1..])[j - 1];
        }
      }
    }
  }

  /** One line of the reference reading: the items after the line followed
      by the entries of the remaining lines are the items before it followed
      by the entries of all the lines. */
  lemma EntriesStep(read: string -> Option<Entry>, lines: seq<string>, before: seq<Entry>, after: seq<Entry>)
    requires lines != [] && Entries(read, lines[1..]).Some?
    requires IsItemLine(lines[0]) ==> read(lines[0]).Some? && after == before + [read(lines[0]).value]
    requires !IsItemLine(lines[0]) ==> after == before
    ensures Entries(read, lines).Some?
    ensures before + Entries(read, lines).value == after + Entries(read, lines[1..]).value
  {
    if IsItemLine(lines[0]) {
      var rest := Entries(read, lines[1..]).value;
      assert before + [read(lines[0]).value] + rest == before + ([read(lines[0]).value] + rest);
    }
  }

  /** The items postmemes records are the ones it started with followed by
      the entries of the item lines, in line order. */
  lemma {:induction false} ScanItems(lines: seq<string>, gain: Tally)
    requires ScanLines(lines, gain).Some?
    ensures Entries(ItemEntry, lines).Some?
    ensures ScanLines(lines, gain).value.items.GetOr([]) == gain.items.GetOr([]) + Entries(ItemEntry, lines).value
    decreases |lines|
  {
    if lines != [] {
      var next := ScanLine(lines[0], gain).value;
      ScanLineItems(lines[0], gain);
      ScanItems(lines[1..], next);
      EntriesStep(ItemEntry, lines, gain.items.GetOr([]), next.items.GetOr([]));
    }
  }

  /** There is no item list after the scan only when there was none before
      and no item line came. */
  lemma {:induction false} ScanItemsPresent(lines: seq<string>, gain: Tally)
    requires ScanLines(lines, gain).Some?
    ensures ScanLines(lines, gain).value.items.None? <==> gain.items.None? && ItemLines(lines) == []
    decreases |lines|
  {
    if lines != [] {
      var next := ScanLine(lines[0], gain).value;
      ScanLineItems(lines[0], gain);
      ScanItemsPresent(lines[1..], next);
    }
  }

  /** What one line does to the items. */
  lemma ScanLineItems(line: string, gain: Tally)
    requires ScanLine(line, gain).Some?
    ensures IsItemLine(line) ==>
      (ItemEntry(line).Some? &&
       ScanLine(line, gain).value.items == Some(gain.items.GetOr([]) + [ItemEntry(line).value]))
    ensures !IsItemLine(line) ==> ScanLine(line, gain).value.items == gain.items
  {
  }

  /** The lines postmemes scans: those after the first three, from the first
      exact `**You Received:**` line on when there is one. */
  lemma PostmemesStart(d: string)
    ensures var all := Drop(Split(RemoveAll(d, ","), '\n'), 3);
      var scanned := PostmemesLines(d);
      |scanned| <= |all| && scanned == all[|all| - |scanned|..] &&
      ("**You Received:**" in all ==>
        scanned != [] && scanned[0] == "**You Received:**" &&
        "**You Received:**" !in all[..|all| - |scanned|]) &&
      ("**You Received:**" !in all ==> scanned == all)
  {
  }

  /** Postmemes fails (the source raises) exactly when the marker is present
      and a scanned line fails; without the marker it is an unsuccessful
      result with nothing gained; otherwise it succeeds with the scanned
      gain. */
  lemma PostmemesResult(d: string)
    ensures !Contains(d, "**You Received") ==>
      Postmemes(d) == Some(CommandResult(false, None, Some(Empty), Some(Empty), None))
    ensures Contains(d, "**You Received") ==>
      (Postmemes(d).Some? <==> forall i :: 0 <= i < |PostmemesLines(d)| ==> !LineFails(PostmemesLines(d)[i]))
    ensures Postmemes(d).Some? && Contains(d, "**You Received") ==>
      Postmemes(d).value.success && Postmemes(d).value.gain == ScanLines(PostmemesLines(d), Empty)
  {
    ScanFails(PostmemesLines(d), Empty);
  }
}
