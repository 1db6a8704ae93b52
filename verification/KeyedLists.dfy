/**
 * Lists whose entries are compared by a key and shared by a controller with other writers. The
 * controller wants some entries, remembers which ones it owns, and leaves all others alone.
 */
module KeyedLists {

  ghost function Keys<T, K>(list: seq<T>, key: T -> K): set<K> {
    set c | c in list :: key(c)
  }

  /** The entries of `list`, in order, whose key is not in `drop`. */
  ghost function Without<T, K>(list: seq<T>, key: T -> K, drop: set<K>): seq<T> {
    if list == [] then []
    else
      var last := list[|list| - 1];
      Without(list[..|list| - 1], key, drop) + if key(last) in drop then [] else [last]
  }

  /** `list` followed by each entry of `more` whose key is not there yet. */
  ghost function AppendMissing<T, K>(list: seq<T>, key: T -> K, more: seq<T>): seq<T> {
    if more == [] then list
    else
      var r := AppendMissing(list, key, more[..|more| - 1]);
      var last := more[|more| - 1];
      if key(last) in Keys(r, key) then r else r + [last]
  }

  // ---------- Facts about the list operations ----------

  lemma KeysConcat<T, K>(a: seq<T>, b: seq<T>, key: T -> K)
    ensures Keys(a + b, key) == Keys(a, key) + Keys(b, key)
  {
    forall k | k in Keys(a, key) + Keys(b, key)
      ensures k in Keys(a + b, key)
    {
      var c :| (c in a || c in b) && k == key(c);
      assert c in a + b;
    }
  }

  lemma {:induction false} WithoutKeys<T, K>(list: seq<T>, key: T -> K, drop: set<K>)
    ensures Keys(Without(list, key, drop), key) == Keys(list, key) - drop
    ensures forall c <- Without(list, key, drop) :: c in list
  {
    if list != [] {
      var init, last := list[..|list| - 1], list[|list| - 1];
      WithoutKeys(init, key, drop);
      assert list == init + [last];
      KeysConcat(init, [last], key);
      KeysConcat(Without(init, key, drop), if key(last) in drop then [] else [last], key);
    }
  }

  lemma {:induction false} WithoutConcat<T, K>(a: seq<T>, b: seq<T>, key: T -> K, drop: set<K>)
    ensures Without(a + b, key, drop) == Without(a, key, drop) + Without(b, key, drop)
  {
    if b == [] {
      assert a + b == a;
    } else {
      WithoutConcat(a, b[..|b| - 1], key, drop);
      assert (a + b)[..|a + b| - 1] == a + b[..|b| - 1];
    }
  }

  /** Dropping twice is dropping once, and only the keys that occur matter. */
  lemma {:induction false} WithoutTwice<T, K>(
    list: seq<T>, key: T -> K, drop: set<K>, drop': set<K>, both: set<K>)
    requires forall k <- Keys(list, key) :: k in both <==> k in drop || k in drop'
    ensures Without(Without(list, key, drop), key, drop') == Without(list, key, both)
  {
    if list != [] {
      var init, last := list[..|list| - 1], list[|list| - 1];
      assert list == init + [last];
      KeysConcat(init, [last], key);
      WithoutTwice(init, key, drop, drop', both);
      var tail := if key(last) in drop then [] else [last];
      WithoutConcat(Without(init, key, drop), tail, key, drop');
      assert key(last) in Keys(list, key);
    }
  }

  lemma {:induction false} WithoutNothing<T, K>(list: seq<T>, key: T -> K, drop: set<K>)
    requires Keys(list, key) !! drop
    ensures Without(list, key, drop) == list
  {
    if list != [] {
      var init, last := list[..|list| - 1], list[|list| - 1];
      assert list == init + [last];
      KeysConcat(init, [last], key);
      WithoutNothing(init, key, drop);
    }
  }

  lemma {:induction false} WithoutEverything<T, K>(list: seq<T>, key: T -> K, drop: set<K>)
    requires Keys(list, key) <= drop
    ensures Without(list, key, drop) == []
  {
    if list != [] {
      var init, last := list[..|list| - 1], list[|list| - 1];
      assert list == init + [last];
      KeysConcat(init, [last], key);
      WithoutEverything(init, key, drop);
    }
  }

  /** Appending leaves the list in front, adds keys of `more` only, and each of them once. */
  lemma {:induction false} AppendMissingShape<T, K>(list: seq<T>, key: T -> K, more: seq<T>)
    ensures list <= AppendMissing(list, key, more)
    ensures Keys(AppendMissing(list, key, more), key) == Keys(list, key) + Keys(more, key)
    ensures AppendedOnce(list, AppendMissing(list, key, more), key)
    ensures forall c <- AppendMissing(list, key, more)[|list|..] :: c in more
  {
    if more != [] {
      var init, last := more[..|more| - 1], more[|more| - 1];
      AppendMissingShape(list, key, init);
      var r := AppendMissing(list, key, init);
      assert more == init + [last];
      KeysConcat(init, [last], key);
      KeysConcat(r, [last], key);
      if key(last) !in Keys(r, key) {
        forall i | 0 <= i < |r|
          ensures key(r[i]) != key(last)
        {
          assert r[i] in r;
        }
        assert (r + [last])[|list|..] == r[|list|..] + [last];
      }
    } else {
      assert Keys(list, key) + Keys(more, key) == Keys(list, key);
    }
  }

  /** No entry after the first `|list|` repeats the key of an earlier one. */
  ghost predicate AppendedOnce<T, K>(list: seq<T>, r: seq<T>, key: T -> K) {
    forall i, j :: |list| <= j < |r| && 0 <= i < j ==> key(r[i]) != key(r[j])
  }

  /** Nothing is appended when every key is there. */
  lemma {:induction false} AppendNothingMissing<T, K>(list: seq<T>, key: T -> K, more: seq<T>)
    requires Keys(more, key) <= Keys(list, key)
    ensures AppendMissing(list, key, more) == list
  {
    if more != [] {
      var init, last := more[..|more| - 1], more[|more| - 1];
      assert more == init + [last];
      KeysConcat(init, [last], key);
      AppendNothingMissing(list, key, init);
    }
  }

  // ---------- Shared ownership ----------

  /** The new list: former own entries that are no longer wanted go, wanted ones that are missing come. */
  ghost function Desired<T, K>(current: seq<T>, managed: seq<T>, wanted: seq<T>, key: T -> K): seq<T> {
    AppendMissing(Without(current, key, Keys(managed, key) - Keys(wanted, key)), key, wanted)
  }

  /** The wanted entries that nobody else listed before. */
  ghost function Owned<T, K>(current: seq<T>, managed: seq<T>, wanted: seq<T>, key: T -> K): seq<T> {
    Without(wanted, key, Keys(current, key) - Keys(managed, key))
  }

  /** The entries of everyone but the controller. */
  ghost function UserView<T, K>(current: seq<T>, managed: seq<T>, key: T -> K): seq<T> {
    Without(current, key, Keys(managed, key))
  }

  /** One step of the controller keeps the entries of everyone else, and their order, whatever came before. */
  lemma UserViewConserved<T, K>(current: seq<T>, managed: seq<T>, wanted: seq<T>, key: T -> K)
    ensures UserView(Desired(current, managed, wanted, key), Owned(current, managed, wanted, key), key)
            == UserView(current, managed, key)
  {
    var km, kw, kc := Keys(managed, key), Keys(wanted, key), Keys(current, key);
    var kept := Without(current, key, km - kw);
    var desired := Desired(current, managed, wanted, key);
    var owned := Keys(Owned(current, managed, wanted, key), key);
    WithoutKeys(wanted, key, kc - km);
    WithoutKeys(current, key, km - kw);
    AppendMissingShape(kept, key, wanted);
    var added := desired[|kept|..];
    assert desired == kept + added;
    WithoutConcat(kept, added, key, owned);
    WithoutTwice(current, key, km - kw, owned, km);
    AddedIsOwned(current, managed, wanted, key);
    WithoutEverything(added, key, owned);
  }

  lemma AddedIsOwned<T, K>(current: seq<T>, managed: seq<T>, wanted: seq<T>, key: T -> K)
    ensures var kept := Without(current, key, Keys(managed, key) - Keys(wanted, key));
            && |kept| <= |Desired(current, managed, wanted, key)|
            && Keys(Desired(current, managed, wanted, key)[|kept|..], key)
               <= Keys(Owned(current, managed, wanted, key), key)
  {
    var km, kw, kc := Keys(managed, key), Keys(wanted, key), Keys(current, key);
    var kept := Without(current, key, km - kw);
    var desired := Desired(current, managed, wanted, key);
    WithoutKeys(wanted, key, kc - km);
    WithoutKeys(current, key, km - kw);
    AppendMissingShape(kept, key, wanted);
    forall k | k in Keys(desired[|kept|..], key)
      ensures k in kw && k !in kc - km
    {
      var j :| |kept| <= j < |desired| && k == key(desired[j]);
      assert desired[j] in desired[|kept|..];
      forall i | 0 <= i < |kept|
        ensures key(kept[i]) != k
      {
        assert desired[i] == kept[i];
      }
      assert k !in Keys(kept, key);
    }
  }

  /** The keys of the new list: what others listed, and what is wanted. */
  lemma DesiredKeys<T, K>(current: seq<T>, managed: seq<T>, wanted: seq<T>, key: T -> K)
    ensures Keys(Desired(current, managed, wanted, key), key)
            == (Keys(current, key) - Keys(managed, key)) + Keys(wanted, key)
  {
    var drop := Keys(managed, key) - Keys(wanted, key);
    WithoutKeys(current, key, drop);
    AppendMissingShape(Without(current, key, drop), key, wanted);
  }

  /** The controller owns exactly the wanted keys that nobody else listed. */
  lemma OwnedKeys<T, K>(current: seq<T>, managed: seq<T>, wanted: seq<T>, key: T -> K)
    ensures Keys(Owned(current, managed, wanted, key), key)
            == Keys(wanted, key) - Keys(UserView(current, managed, key), key)
    ensures forall c <- Owned(current, managed, wanted, key) :: c in wanted
  {
    WithoutKeys(wanted, key, Keys(current, key) - Keys(managed, key));
    WithoutKeys(current, key, Keys(managed, key));
  }

  /** A second step, from what the first step left, changes neither the list nor what is owned. */
  lemma SecondStepIsIdentity<T, K>(current: seq<T>, managed: seq<T>, wanted: seq<T>, key: T -> K)
    ensures var list, owned := Desired(current, managed, wanted, key), Owned(current, managed, wanted, key);
            && Desired(list, owned, wanted, key) == list
            && Owned(list, owned, wanted, key) == owned
  {
    var list, owned := Desired(current, managed, wanted, key), Owned(current, managed, wanted, key);
    DesiredKeys(current, managed, wanted, key);
    WithoutKeys(wanted, key, Keys(current, key) - Keys(managed, key));
    // No owned entry is unwanted, and no wanted key is missing.
    WithoutNothing(list, key, Keys(owned, key) - Keys(wanted, key));
    AppendNothingMissing(list, key, wanted);
    // A wanted entry is owned the second time exactly when it was the first time.
    WithoutTwice(wanted, key, {}, Keys(list, key) - Keys(owned, key), Keys(current, key) - Keys(managed, key));
    WithoutNothing(wanted, key, {});
  }
}
