/** The accounts store of src/stores/accounts.ts: the account list kept in
    memory and written through, as JSON text, to one entry of the browser's
    key-value storage. */
module AccountStore {
  import opened Types
  import Json

  /** The storage key, which is also the store's id. */
  const Key := "accounts"

  /** localStorage.getItem: the value under `key`, or None (JavaScript's
      null) when there is none. */
  function GetItem(storage: map<string, string>, key: string): (v: Option<string>)
    ensures v.Some? <==> key in storage
    ensures v.Some? ==> v.value == storage[key]
  {
    if key in storage then Some(storage[key]) else None
  }

  /** The truth test `if (raw)` on what getItem returned: null and the empty
      string are falsy, any other string is truthy. */
  predicate Truthy(raw: Option<string>) {
    raw.Some? && raw.value != ""
  }

  // ----- The list operations behind set and remove -----

  /** `accounts[i] = a` on an array of length |xs|, for an index no greater
      than the length: overwrite in place, or append at the end. */
  function SetAt(xs: seq<Account>, i: int, a: Account): (r: seq<Account>)
    requires 0 <= i <= |xs|
    ensures |r| == if i < |xs| then |xs| else |xs| + 1
    ensures r[i] == a
    ensures forall j :: 0 <= j < |xs| && j != i ==> r[j] == xs[j]
  {
    if i < |xs| then xs[i := a] else xs + [a]
  }

  /** The actual start of `splice(i, 1)` on an array of length `len`
      (ECMA-262 (2023) section 23.1.3.31, steps 4 to 6): a negative start
      counts back from the end and stops at 0, a start past the end stops at
      the end. */
  function SpliceStart(len: nat, i: int): (k: nat)
    ensures k <= len
    ensures 0 <= i ==> k == (if i < len then i else len)
    ensures i < 0 ==> k == (if len + i < 0 then 0 else len + i)
  {
    if i < 0 then (if len + i < 0 then 0 else len + i)
    else if i < len then i
    else len
  }

  /** `splice(i, 1)`: delete the one element at the actual start, if there is
      an element there; the elements after it move down by one. */
  function RemoveAt(xs: seq<Account>, i: int): (r: seq<Account>)
    ensures |r| == if xs != [] && i < |xs| then |xs| - 1 else |xs|
  {
    var k := SpliceStart(|xs|, i);
    if k < |xs| then xs[..k] + xs[k + 1..] else xs
  }

  /** An index inside the list removes exactly that element. */
  lemma RemoveInRange(xs: seq<Account>, i: int)
    requires 0 <= i < |xs|
    ensures RemoveAt(xs, i) == xs[..i] + xs[i + 1..]
    ensures forall j :: 0 <= j < i ==> RemoveAt(xs, i)[j] == xs[j]
    ensures forall j :: i <= j < |xs| - 1 ==> RemoveAt(xs, i)[j] == xs[j + 1]
  {
    assert SpliceStart(|xs|, i) == i;
  }

  /** An index at or past the end removes nothing, and does not fail. */
  lemma RemovePastEnd(xs: seq<Account>, i: int)
    requires i >= |xs|
    ensures RemoveAt(xs, i) == xs
  {
    assert SpliceStart(|xs|, i) == |xs|;
  }

  /** A negative index removes the element at `max(|xs| + i, 0)`. */
  lemma RemoveNegative(xs: seq<Account>, i: int)
    requires i < 0 && xs != []
    ensures var k := if |xs| + i < 0 then 0 else |xs| + i;
      RemoveAt(xs, i) == xs[..k] + xs[k + 1..]
  {
    assert SpliceStart(|xs|, i) == if |xs| + i < 0 then 0 else |xs| + i;
  }

  /** Removing takes out exactly one occurrence of one element of the list,
      or nothing at all. */
  lemma RemoveTakesOne(xs: seq<Account>, i: int)
    ensures var k := SpliceStart(|xs|, i);
      multiset(RemoveAt(xs, i)) == if k < |xs| then multiset(xs) - multiset{xs[k]} else multiset(xs)
  {
    var k := SpliceStart(|xs|, i);
    if k < |xs| {
      assert xs == xs[..k] + [xs[k]] + xs[k + 1..];
      assert multiset(xs) == multiset(xs[..k]) + multiset{xs[k]} + multiset(xs[k + 1..]);
    }
  }

  /** The saved text is never the empty string, so a later `init` always
      takes its truthy branch. */
  lemma EncodeIsTruthy(xs: seq<Account>)
    ensures Truthy(Some(Json.Encode(xs)))
  {
    assert Json.Encode(xs)[0] == '[';
  }

  // ----- The store -----

  /** The Pinia store `useAccountsStore`: its state `accounts`, and
      localStorage as a map from keys to stored strings. */
  class Store {
    var accounts: seq<Account>
    var storage: map<string, string>

    /** The storage entry under Key holds the encoding of `accounts`. */
    predicate Synced()
      reads this
    {
      Key in storage && storage[Key] == Json.Encode(accounts)
    }

    /** The store's initial state: no accounts, over whatever the storage
        already holds. */
    constructor (initial: map<string, string>)
      ensures accounts == [] && storage == initial
    {
      accounts := [];
      storage := initial;
    }

    /** `init`: read the entry under Key; when it is truthy, replace the
        accounts with its decoding. `thrown` stands for JSON.parse throwing,
        which leaves the accounts as they were. Storage is never written. */
    method Init() returns (thrown: bool)
      modifies this`accounts
      ensures storage == old(storage)
      ensures !Truthy(GetItem(storage, Key)) ==> !thrown && accounts == old(accounts)
      ensures Truthy(GetItem(storage, Key)) ==>
        match Json.Decode(storage[Key])
        case Some(xs) => !thrown && accounts == xs
        case None => thrown && accounts == old(accounts)
      ensures forall ys :: GetItem(storage, Key) == Some(Json.Encode(ys)) ==> !thrown && accounts == ys
    {
      thrown := false;
      var raw := GetItem(storage, Key);
      if Truthy(raw) {
        match Json.Decode(raw.value)
        case Some(xs) => accounts := xs;
        case None => thrown := true;
      }
      forall ys | GetItem(storage, Key) == Some(Json.Encode(ys))
        ensures Truthy(raw) && Json.Decode(raw.value) == Some(ys)
      {
        EncodeIsTruthy(ys);
        Json.DecodeEncode(ys);
      }
    }

    /** `save`: overwrite the entry under Key with the encoding of the
        accounts; every other entry stays as it was. */
    method Save()
      modifies this`storage
      ensures storage == old(storage)[Key := Json.Encode(accounts)]
      ensures Synced()
    {
      storage := storage[Key := Json.Encode(accounts)];
    }

    /** `set(i, a)`: write `a` at index `i`, then save. */
    method Set(i: int, a: Account)
      requires 0 <= i <= |accounts|
      modifies this
      ensures accounts == SetAt(old(accounts), i, a)
      ensures storage == old(storage)[Key := Json.Encode(accounts)]
      ensures Synced()
    {
      if i < |accounts| {
        accounts := accounts[i := a];
      } else {
        accounts := accounts + [a];
      }
      Save();
    }

    /** `remove(i)`: `splice(i, 1)` on the accounts, then save, also when
        nothing was removed. */
    method Remove(i: int)
      modifies this
      ensures accounts == RemoveAt(old(accounts), i)
      ensures storage == old(storage)[Key := Json.Encode(accounts)]
      ensures Synced()
    {
      var k := SpliceStart(|accounts|, i);
      if k < |accounts| {
        accounts := accounts[..k] + accounts[k + 1..];
      }
      Save();
    }
  }

  // ----- Uses of the store -----

  /** With nothing stored, a fresh store's `init` leaves the list empty. */
  method InitWithoutStoredValue(storage: map<string, string>) returns (xs: seq<Account>, thrown: bool)
    requires Key !in storage
    ensures xs == [] && !thrown
  {
    var s := new Store(storage);
    thrown := s.Init();
    xs := s.accounts;
  }

  /** `set(0, a)` and `set(1, b)` on a fresh store, then a reload: a second
      store over the same storage reads back `[a, b]`. */
  method SetTwiceThenReload(storage: map<string, string>, a: Account, b: Account)
    returns (xs: seq<Account>, thrown: bool)
    ensures xs == [a, b] && !thrown
  {
    var s := new Store(storage);
    s.Set(0, a);
    s.Set(1, b);
    assert s.accounts == [a, b];
    xs, thrown := Reload(s);
  }

  /** Whatever a store has saved, a store started later over that storage
      restores by `init`. */
  method Reload(s: Store) returns (xs: seq<Account>, thrown: bool)
    requires s.Synced()
    ensures xs == s.accounts && !thrown
  {
    var reloaded := new Store(s.storage);
    thrown := reloaded.Init();
    xs := reloaded.accounts;
  }

  /** `remove(1)` on `[a, b, c]` leaves `[a, c]`, already saved. */
  method RemoveMiddle(storage: map<string, string>, a: Account, b: Account, c: Account)
    returns (xs: seq<Account>, stored: Option<string>)
    ensures xs == [a, c]
    ensures stored == Some(Json.Encode([a, c]))
  {
    var s := new Store(storage);
    s.Set(0, a);
    s.Set(1, b);
    s.Set(2, c);
    s.Remove(1);
    RemoveInRange([a, b, c], 1);
    xs := s.accounts;
    stored := GetItem(s.storage, Key);
  }

  /** `remove(5)` on `[a]` leaves `[a]` and does not fail. */
  method RemoveOutOfRange(storage: map<string, string>, a: Account)
    returns (xs: seq<Account>, stored: Option<string>)
    ensures xs == [a]
    ensures stored == Some(Json.Encode([a]))
  {
    var s := new Store(storage);
    s.Set(0, a);
    s.Remove(5);
    RemovePastEnd([a], 5);
    xs := s.accounts;
    stored := GetItem(s.storage, Key);
  }

  /** Two saves in a row store the same text. */
  method SaveTwice(storage: map<string, string>, ys: seq<Account>)
    returns (first: string, second: string)
    ensures first == second == Json.Encode(ys)
  {
    var s := new Store(storage);
    s.accounts := ys;
    s.Save();
    first := s.storage[Key];
    s.Save();
    second := s.storage[Key];
  }
}
