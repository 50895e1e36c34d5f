/** The websocket event store: per-nonce bookkeeping of the messages and
    interactions a command produced, and the one operation on it, `clear`,
    which forgets everything recorded for a nonce. */
module CacheStore {

  /** Python `list.remove(x)` on a list that holds `x`: the first occurrence
      is deleted. On a list without `x` the result is the list itself (the
      source only calls `remove` after testing `x in list`). */
  function RemoveFirst<T(==)>(s: seq<T>, x: T): seq<T>
    decreases |s|
  {
    if s == [] then []
    else if s[0] == x then s[1..]
    else [s[0]] + RemoveFirst(s[1..], x)
  }

  /** One occurrence of `x` goes and nothing else changes in number; a list
      without `x` stays as it is. */
  lemma {:induction false} RemoveFirstSpec<T>(s: seq<T>, x: T)
    ensures x in s ==>
      (|RemoveFirst(s, x)| == |s| - 1 && multiset(RemoveFirst(s, x)) == multiset(s) - multiset{x})
    ensures x !in s ==> RemoveFirst(s, x) == s
    decreases |s|
  {
    if s != [] {
      assert s == [s[0]] + s[1..];
      RemoveFirstSpec(s[1..], x);
    }
  }

  /** Only the first occurrence goes: the result is the list with the
      element at the first index of `x` cut out, so the other elements keep
      their order. */
  lemma {:induction false} RemoveFirstAt<T>(s: seq<T>, x: T, k: nat)
    requires k < |s| && s[k] == x && x !in s[..k]
    ensures RemoveFirst(s, x) == s[..k] + s[k + 1..]
    decreases k
  {
    if k > 0 {
      assert s[0] in s[..k];
      assert s[1..][..k - 1] == s[..k][1..];
      RemoveFirstAt(s[1..], x, k - 1);
      assert s[..k] == [s[0]] + s[1..][..k - 1];
    }
  }

  /** The six fields of the store, as one value. */
  datatype Snapshot<MsgId, Upd, Msg, Raw> = Snapshot(
    nonceMessageMap: map<string, MsgId>,
    interactionCreate: seq<string>,
    interactionSuccess: seq<string>,
    rawMessageUpdates: seq<Raw>,
    messageCreate: map<string, Msg>,
    messageUpdates: map<MsgId, Upd>)

  /** The store after `clear(nonce)`: the nonce's map entries, the updates
      of the message it was mapped to and one occurrence in each interaction
      list are gone, and the raw update list is emptied. */
  function Cleared<MsgId, Upd, Msg, Raw>(st: Snapshot<MsgId, Upd, Msg, Raw>, nonce: string): Snapshot<MsgId, Upd, Msg, Raw> {
    Snapshot(
      Without(st.nonceMessageMap, nonce),
      RemoveFirst(st.interactionCreate, nonce),
      RemoveFirst(st.interactionSuccess, nonce),
      [],
      Without(st.messageCreate, nonce),
      if nonce in st.nonceMessageMap then Without(st.messageUpdates, st.nonceMessageMap[nonce])
      else st.messageUpdates)
  }

  /** Python `del d[k]` guarded by `k in d`. */
  function Without<K, V>(m: map<K, V>, k: K): (r: map<K, V>)
    ensures r == m - {k}
  {
    if k in m then m - {k} else m
  }

  /** What `clear` removes. */
  lemma ClearedRemoves<MsgId, Upd, Msg, Raw>(st: Snapshot<MsgId, Upd, Msg, Raw>, nonce: string)
    ensures var c := Cleared(st, nonce);
      nonce !in c.nonceMessageMap && nonce !in c.messageCreate &&
      (nonce in st.nonceMessageMap ==> st.nonceMessageMap[nonce] !in c.messageUpdates) &&
      multiset(c.interactionCreate)[nonce] == (if nonce in st.interactionCreate then multiset(st.interactionCreate)[nonce] - 1 else 0) &&
      multiset(c.interactionSuccess)[nonce] == (if nonce in st.interactionSuccess then multiset(st.interactionSuccess)[nonce] - 1 else 0) &&
      c.rawMessageUpdates == []
  {
    RemoveFirstSpec(st.interactionCreate, nonce);
    RemoveFirstSpec(st.interactionSuccess, nonce);
  }

  /** What `clear` keeps: every other entry of the three maps with its value,
      and, in each interaction list, every element but the first occurrence
      of the nonce, in order; a list without the nonce is kept whole. */
  lemma ClearedFrame<MsgId, Upd, Msg, Raw>(st: Snapshot<MsgId, Upd, Msg, Raw>, nonce: string)
    ensures var c := Cleared(st, nonce);
      (forall n :: n in st.nonceMessageMap && n != nonce ==>
        n in c.nonceMessageMap && c.nonceMessageMap[n] == st.nonceMessageMap[n]) &&
      (forall n :: n in st.messageCreate && n != nonce ==>
        n in c.messageCreate && c.messageCreate[n] == st.messageCreate[n]) &&
      (forall id :: id in st.messageUpdates && (nonce in st.nonceMessageMap ==> id != st.nonceMessageMap[nonce]) ==>
        id in c.messageUpdates && c.messageUpdates[id] == st.messageUpdates[id]) &&
      c.nonceMessageMap.Keys <= st.nonceMessageMap.Keys &&
      c.messageCreate.Keys <= st.messageCreate.Keys &&
      c.messageUpdates.Keys <= st.messageUpdates.Keys
    ensures forall k :: 0 <= k < |st.interactionCreate| && st.interactionCreate[k] == nonce && nonce !in st.interactionCreate[..k] ==>
      Cleared(st, nonce).interactionCreate == st.interactionCreate[..k] + st.interactionCreate[k + 1..]
    ensures forall k :: 0 <= k < |st.interactionSuccess| && st.interactionSuccess[k] == nonce && nonce !in st.interactionSuccess[..k] ==>
      Cleared(st, nonce).interactionSuccess == st.interactionSuccess[..k] + st.interactionSuccess[k + 1..]
    ensures nonce !in st.interactionCreate ==> Cleared(st, nonce).interactionCreate == st.interactionCreate
    ensures nonce !in st.interactionSuccess ==> Cleared(st, nonce).interactionSuccess == st.interactionSuccess
  {
    RemoveFirstSpec(st.interactionCreate, nonce);
    RemoveFirstSpec(st.interactionSuccess, nonce);
    forall k | 0 <= k < |st.interactionCreate| && st.interactionCreate[k] == nonce && nonce !in st.interactionCreate[..k]
      ensures Cleared(st, nonce).interactionCreate == st.interactionCreate[..k] + st.interactionCreate[k + 1..]
    {
      RemoveFirstAt(st.interactionCreate, nonce, k);
    }
    forall k | 0 <= k < |st.interactionSuccess| && st.interactionSuccess[k] == nonce && nonce !in st.interactionSuccess[..k]
      ensures Cleared(st, nonce).interactionSuccess == st.interactionSuccess[..k] + st.interactionSuccess[k + 1..]
    {
      RemoveFirstAt(st.interactionSuccess, nonce, k);
    }
  }

  /** A nonce recorded nowhere: `clear` only empties the raw update list. */
  lemma ClearedAbsent<MsgId, Upd, Msg, Raw>(st: Snapshot<MsgId, Upd, Msg, Raw>, nonce: string)
    requires nonce !in st.nonceMessageMap && nonce !in st.messageCreate
    requires nonce !in st.interactionCreate && nonce !in st.interactionSuccess
    ensures Cleared(st, nonce) == st.(rawMessageUpdates := [])
  {
    RemoveFirstSpec(st.interactionCreate, nonce);
    RemoveFirstSpec(st.interactionSuccess, nonce);
    assert st.nonceMessageMap - {nonce} == st.nonceMessageMap;
    assert st.messageCreate - {nonce} == st.messageCreate;
  }

  /** A second `clear` of the same nonce changes nothing exactly when the
      nonce occurred at most once in each interaction list. */
  lemma ClearedIdempotent<MsgId, Upd, Msg, Raw>(st: Snapshot<MsgId, Upd, Msg, Raw>, nonce: string)
    ensures Cleared(Cleared(st, nonce), nonce) == Cleared(st, nonce) <==>
      multiset(st.interactionCreate)[nonce] <= 1 && multiset(st.interactionSuccess)[nonce] <= 1
  {
    var c := Cleared(st, nonce);
    ClearedRemoves(st, nonce);
    if multiset(st.interactionCreate)[nonce] <= 1 && multiset(st.interactionSuccess)[nonce] <= 1 {
      assert nonce !in c.interactionCreate;
      assert nonce !in c.interactionSuccess;
      ClearedAbsent(c, nonce);
    } else if multiset(st.interactionCreate)[nonce] > 1 {
      assert nonce in c.interactionCreate;
      RemoveFirstSpec(c.interactionCreate, nonce);
    } else {
      assert nonce in c.interactionSuccess;
      RemoveFirstSpec(c.interactionSuccess, nonce);
    }
  }

  /** `Cache`: the event store a client fills while it waits for the replies
      to its commands. */
  class Cache<MsgId(==), Upd, Msg, Raw> {
    var nonceMessageMap: map<string, MsgId>
    var interactionCreate: seq<string>
    var interactionSuccess: seq<string>
    var rawMessageUpdates: seq<Raw>
    var messageCreate: map<string, Msg>
    var messageUpdates: map<MsgId, Upd>

    function State(): Snapshot<MsgId, Upd, Msg, Raw>
      reads this
    {
      Snapshot(nonceMessageMap, interactionCreate, interactionSuccess,
        rawMessageUpdates, messageCreate, messageUpdates)
    }

    /** A new store holds nothing. */
    constructor ()
      ensures State() == Snapshot(map[], [], [], [], map[], map[])
    {
      nonceMessageMap := map[];
      interactionCreate := [];
      interactionSuccess := [];
      rawMessageUpdates := [];
      messageCreate := map[];
      messageUpdates := map[];
    }

    /** `Cache.clear`: forget what was recorded for `nonce`. */
    method Clear(nonce: string)
      modifies this
      ensures State() == Cleared(old(State()), nonce)
      ensures nonce !in nonceMessageMap && nonce !in messageCreate && rawMessageUpdates == []
    {
      RemoveFirstSpec(interactionCreate, nonce);
      RemoveFirstSpec(interactionSuccess, nonce);
      if nonce in nonceMessageMap {
        var relevantId := nonceMessageMap[nonce];
        nonceMessageMap := nonceMessageMap - {nonce};
        if relevantId in messageUpdates {
          messageUpdates := messageUpdates - {relevantId};
        }
      }
      if nonce in interactionCreate {
        interactionCreate := RemoveFirst(interactionCreate, nonce);
      }
      if nonce in interactionSuccess {
        interactionSuccess := RemoveFirst(interactionSuccess, nonce);
      }
      if nonce in messageCreate {
        messageCreate := messageCreate - {nonce};
      }
      rawMessageUpdates := [];
    }
  }
}
