/** A data store that keys user names by the decimal string of their
    position in the list it was built from. */
module UserStore {
  import Decimal

  datatype SimpleDataStore = SimpleDataStore(userData: map<string, string>)

  /** The IDs a store built from `n` names answers for. */
  function IdsBelow(n: nat): set<string>
  {
    set i | 0 <= i < n :: Decimal.FormatInt(i)
  }

  /** Position `n` adds the one key that no earlier position used. */
  lemma IdsBelowStep(n: nat)
    ensures Decimal.FormatInt(n) !in IdsBelow(n)
    ensures IdsBelow(n + 1) == IdsBelow(n) + {Decimal.FormatInt(n)}
  {
    if Decimal.FormatInt(n) in IdsBelow(n) {
      var i :| 0 <= i < n && Decimal.FormatInt(i) == Decimal.FormatInt(n);
      Decimal.FormatIntInjective(i, n);
    }
  }

  /** What the store built from `names` holds: one entry per position,
      keyed by the position's decimal form. */
  ghost predicate HoldsByPosition(names: seq<string>, m: map<string, string>)
  {
    && m.Keys == IdsBelow(|names|)
    && |m| == |names|
    && forall i :: 0 <= i < |names| ==>
         Decimal.FormatInt(i) in m && m[Decimal.FormatInt(i)] == names[i]
  }

  /** One more iteration of the construction loop: storing the last name
      under its position's key extends a store of the earlier names to a
      store of all of them. */
  lemma StoreStep(names: seq<string>, prev: map<string, string>)
    requires |names| > 0
    requires HoldsByPosition(names[..|names| - 1], prev)
    ensures HoldsByPosition(names, prev[Decimal.FormatInt(|names| - 1) := names[|names| - 1]])
  {
    var n := |names| - 1;
    var key := Decimal.FormatInt(n);
    var m := prev[key := names[n]];
    IdsBelowStep(n);
    assert m.Keys == prev.Keys + {key};
    assert |m| == |prev| + 1;
    forall i | 0 <= i <= n
      ensures Decimal.FormatInt(i) in m && m[Decimal.FormatInt(i)] == names[i]
    {
      if i < n {
        assert names[..n][i] == names[i];
      }
    }
  }

  /** `NewSimpleDataStore`: the names are stored in list order, the `i`-th
      under the key `strconv.Itoa(i)`. Keys never collide, so the store has
      one entry per name and repeated names are all kept. */
  function NewSimpleDataStore(names: seq<string>): (s: SimpleDataStore)
    ensures s.userData.Keys == IdsBelow(|names|)
    ensures |s.userData| == |names|
    ensures forall i :: 0 <= i < |names| ==>
      Decimal.FormatInt(i) in s.userData && s.userData[Decimal.FormatInt(i)] == names[i]
  {
    if |names| == 0 then SimpleDataStore(map[])
    else
      var n := |names| - 1;
      var prev := NewSimpleDataStore(names[..n]).userData;
      StoreStep(names, prev);
      SimpleDataStore(prev[Decimal.FormatInt(n) := names[n]])
  }

  /** `SimpleDataStore.UserNameForID`: the stored name and true for a known
      ID; the empty string and false for any other. */
  function UserNameForID(s: SimpleDataStore, userID: string): (r: (string, bool))
    ensures r.1 <==> userID in s.userData
    ensures r.1 ==> r.0 == s.userData[userID]
    ensures !r.1 ==> r.0 == ""
  {
    if userID in s.userData then (s.userData[userID], true) else ("", false)
  }

  /** Looking up the decimal form of a position finds the name that was at
      that position; every other ID is unknown. */
  lemma LookupAfterBuild(names: seq<string>, userID: string)
    ensures forall i :: 0 <= i < |names| ==>
      UserNameForID(NewSimpleDataStore(names), Decimal.FormatInt(i)) == (names[i], true)
    ensures (forall i :: 0 <= i < |names| ==> userID != Decimal.FormatInt(i)) ==>
      UserNameForID(NewSimpleDataStore(names), userID) == ("", false)
  {
  }

  /** A store built from no names knows no ID. */
  lemma EmptyStoreKnowsNoID(userID: string)
    ensures UserNameForID(NewSimpleDataStore([]), userID) == ("", false)
  {
  }
}
