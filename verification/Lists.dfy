/** Lists whose entries are cleaned, not blank, and distinct ignoring case, as several components keep them. */
module Lists {

  /** How names are compared ignoring case: by what a folding makes of them. Only the empty name folds to nothing. */
  type Folding = string -> string

  ghost predicate KeepsEmptiness(fold: Folding) {
    forall s :: fold(s) == "" <==> s == ""
  }

  /** The position of the first item with a key, or -1. */
  function IndexOf<T>(items: seq<T>, key: T -> seq<string>, k: seq<string>): (index: int)
    ensures -1 <= index < |items|
    ensures index >= 0 ==> key(items[index]) == k
  {
    if items == [] then -1
    else
      var front := IndexOf(items[..|items| - 1], key, k);
      if front >= 0 then front
      else if key(items[|items| - 1]) == k then |items| - 1
      else -1
  }

  /** The items whose key has no blank part and has not occurred before. */
  function KeepFirst<T>(items: seq<T>, key: T -> seq<string>): seq<T> {
    if items == [] then []
    else
      var kept, last := KeepFirst(items[..|items| - 1], key), items[|items| - 1];
      if "" !in key(last) && IndexOf(kept, key, key(last)) < 0 then kept + [last] else kept
  }

  ghost predicate Kept<T>(items: seq<T>, key: T -> seq<string>) {
    && (forall i :: 0 <= i < |items| ==> "" !in key(items[i]))
    && (forall i, j :: 0 <= i < j < |items| ==> key(items[i]) != key(items[j]))
  }

  lemma {:induction false} IndexOfIsFirst<T>(items: seq<T>, key: T -> seq<string>, k: seq<string>)
    ensures IndexOf(items, key, k) < 0 <==> forall i :: 0 <= i < |items| ==> key(items[i]) != k
    ensures forall i :: 0 <= i < IndexOf(items, key, k) ==> key(items[i]) != k
  {
    if items == [] {
    } else {
      IndexOfIsFirst(items[..|items| - 1], key, k);
    }
  }

  lemma {:induction false} KeepFirstIsKept<T>(items: seq<T>, key: T -> seq<string>)
    ensures Kept(KeepFirst(items, key), key)
    ensures forall x :: x in KeepFirst(items, key) ==> x in items
  {
    if items == [] {
    } else {
      var front, last := items[..|items| - 1], items[|items| - 1];
      KeepFirstIsKept(front, key);
      assert items == front + [last];
      IndexOfIsFirst(KeepFirst(front, key), key, key(last));
    }
  }

  lemma {:induction false} KeepFirstOfKept<T>(items: seq<T>, key: T -> seq<string>)
    requires Kept(items, key)
    ensures KeepFirst(items, key) == items
  {
    hide IndexOf;
    if items == [] {
    } else {
      var front, last := items[..|items| - 1], items[|items| - 1];
      KeepFirstOfKept(front, key);
      IndexOfIsFirst(front, key, key(last));
      assert items == front + [last];
    }
  }

  /** Item i is the first with its key, and the key has no blank part. */
  predicate IsFirst<T>(items: seq<T>, key: T -> seq<string>, i: nat)
    requires i < |items|
  {
    "" !in key(items[i]) && forall j :: 0 <= j < i ==> key(items[j]) != key(items[i])
  }

  function Firsts<T>(items: seq<T>, key: T -> seq<string>, n: nat): seq<T>
    requires n <= |items|
  {
    if n == 0 then [] else Firsts(items, key, n - 1) + if IsFirst(items, key, n - 1) then [items[n - 1]] else []
  }

  lemma {:induction false} FirstsOfPrefix<T>(items: seq<T>, key: T -> seq<string>, m: nat, n: nat)
    requires n <= m <= |items|
    ensures Firsts(items[..m], key, n) == Firsts(items, key, n)
  {
    if n == 0 {
    } else {
      FirstsOfPrefix(items, key, m, n - 1);
    }
  }

  /** The keys of the kept items are the non-blank keys of all items. */
  lemma {:induction false} SameKeys<T>(items: seq<T>, key: T -> seq<string>, k: seq<string>)
    requires "" !in k
    ensures IndexOf(KeepFirst(items, key), key, k) < 0 <==> forall i :: 0 <= i < |items| ==> key(items[i]) != k
  {
    IndexOfIsFirst(KeepFirst(items, key), key, k);
    if items == [] {
    } else {
      var front, last := items[..|items| - 1], items[|items| - 1];
      SameKeys(front, key, k);
      IndexOfIsFirst(KeepFirst(front, key), key, k);
      IndexOfIsFirst(KeepFirst(front, key), key, key(last));
      if KeepFirst(items, key) != KeepFirst(front, key) {
        assert KeepFirst(items, key)[|KeepFirst(front, key)|] == last;
      }
    }
  }

  /** What is kept is exactly the first occurrence of every non-blank key, in order. */
  lemma {:induction false} KeepFirstKeepsFirsts<T>(items: seq<T>, key: T -> seq<string>)
    ensures KeepFirst(items, key) == Firsts(items, key, |items|)
  {
    hide IndexOf;
    if items == [] {
    } else {
      var front, last := items[..|items| - 1], items[|items| - 1];
      KeepFirstKeepsFirsts(front, key);
      FirstsOfPrefix(items, key, |front|, |front|);
      if "" !in key(last) { SameKeys(front, key, key(last)); }
    }
  }

  function CleanEach<T>(items: seq<T>, clean: T -> T): (r: seq<T>)
    ensures |r| == |items|
  {
    if items == [] then [] else CleanEach(items[..|items| - 1], clean) + [clean(items[|items| - 1])]
  }

  function NormalList<T>(items: seq<T>, clean: T -> T, key: T -> seq<string>): seq<T> {
    KeepFirst(CleanEach(items, clean), key)
  }

  ghost predicate IsNormal<T>(items: seq<T>, clean: T -> T, key: T -> seq<string>) {
    (forall x :: x in items ==> clean(x) == x) && Kept(items, key)
  }

  ghost predicate Idempotent<T(!new)>(clean: T -> T) {
    forall x :: clean(clean(x)) == clean(x)
  }

  lemma {:induction false} CleanEachCleans<T(!new)>(items: seq<T>, clean: T -> T)
    requires Idempotent(clean)
    ensures forall x :: x in CleanEach(items, clean) ==> clean(x) == x
  {
    if items == [] {
    } else {
      CleanEachCleans(items[..|items| - 1], clean);
    }
  }

  lemma NormalListIsNormal<T(!new)>(items: seq<T>, clean: T -> T, key: T -> seq<string>)
    requires Idempotent(clean)
    ensures IsNormal(NormalList(items, clean, key), clean, key)
  {
    hide Kept, KeepFirst;
    CleanEachCleans(items, clean);
    KeepFirstIsKept(CleanEach(items, clean), key);
  }

  lemma {:induction false} CleanEachOfClean<T>(items: seq<T>, clean: T -> T)
    requires forall x :: x in items ==> clean(x) == x
    ensures CleanEach(items, clean) == items
  {
    if items == [] {
    } else {
      CleanEachOfClean(items[..|items| - 1], clean);
      assert items == items[..|items| - 1] + [items[|items| - 1]];
    }
  }

  lemma NormalListOfNormal<T>(items: seq<T>, clean: T -> T, key: T -> seq<string>)
    requires IsNormal(items, clean, key)
    ensures NormalList(items, clean, key) == items
  {
    CleanEachOfClean(items, clean);
    KeepFirstOfKept(items, key);
  }

  /** A kept item comes from one of the list. */
  lemma {:induction false} CleanEachFrom<T>(items: seq<T>, clean: T -> T, x: T) returns (y: T)
    requires x in CleanEach(items, clean)
    ensures y in items && x == clean(y)
  {
    var front, last := items[..|items| - 1], items[|items| - 1];
    assert items == front + [last];
    if x == clean(last) {
      y := last;
    } else {
      y := CleanEachFrom(front, clean, x);
    }
  }

  lemma NormalFrom<T>(items: seq<T>, clean: T -> T, key: T -> seq<string>, x: T) returns (y: T)
    requires x in NormalList(items, clean, key)
    ensures y in items && x == clean(y)
  {
    KeepFirstIsKept(CleanEach(items, clean), key);
    y := CleanEachFrom(items, clean, x);
  }

  /** Every item whose key is not blank is represented by a kept one with its key. */
  lemma NormalHas<T>(items: seq<T>, clean: T -> T, key: T -> seq<string>, y: T) returns (x: T)
    requires y in items && "" !in key(clean(y))
    ensures x in NormalList(items, clean, key) && key(x) == key(clean(y))
  {
    hide KeepFirst, IndexOf;
    var all := CleanEach(items, clean);
    var i :| 0 <= i < |items| && items[i] == y;
    CleanEachAt(items, clean, i);
    SameKeys(all, key, key(clean(y)));
    x := NormalList(items, clean, key)[IndexOf(NormalList(items, clean, key), key, key(clean(y)))];
  }

  lemma {:induction false} CleanEachAt<T>(items: seq<T>, clean: T -> T, i: nat)
    requires i < |items|
    ensures CleanEach(items, clean)[i] == clean(items[i])
  {
    if i < |items| - 1 { CleanEachAt(items[..|items| - 1], clean, i); }
  }

  lemma OneMoreItem<T>(items: seq<T>, i: nat, clean: T -> T, key: T -> seq<string>)
    requires i < |items|
    ensures NormalList(items[..i + 1], clean, key)
            == var kept, next := NormalList(items[..i], clean, key), clean(items[i]);
               if "" !in key(next) && IndexOf(kept, key, key(next)) < 0 then kept + [next] else kept
  {
    assert items[..i + 1][..i] == items[..i];
    var all := CleanEach(items[..i + 1], clean);
    assert all == CleanEach(items[..i], clean) + [clean(items[i])];
    assert all[..i] == CleanEach(items[..i], clean);
  }

  lemma NormalAppend<T>(items: seq<T>, x: T, clean: T -> T, key: T -> seq<string>)
    requires IsNormal(items, clean, key) && clean(x) == x && "" !in key(x) && IndexOf(items, key, key(x)) < 0
    ensures IsNormal(items + [x], clean, key)
  {
    IndexOfIsFirst(items, key, key(x));
  }

  lemma NormalUpdate<T>(items: seq<T>, i: nat, y: T, clean: T -> T, key: T -> seq<string>)
    requires IsNormal(items, clean, key) && i < |items| && clean(y) == y && key(y) == key(items[i])
    ensures IsNormal(items[i := y], clean, key)
  {
  }

  lemma {:induction false} SameIndex<T>(items: seq<T>, items': seq<T>, key: T -> seq<string>, k: seq<string>)
    requires |items| == |items'| && forall i :: 0 <= i < |items| ==> key(items[i]) == key(items'[i])
    ensures IndexOf(items, key, k) == IndexOf(items', key, k)
  {
    if items == [] {
    } else {
      SameIndex(items[..|items| - 1], items'[..|items| - 1], key, k);
    }
  }

  lemma IndexOfAppended<T>(items: seq<T>, x: T, key: T -> seq<string>)
    requires IndexOf(items, key, key(x)) < 0
    ensures IndexOf(items + [x], key, key(x)) == |items|
  {
    assert (items + [x])[..|items|] == items;
  }

  lemma NormalMember<T>(items: seq<T>, i: nat, clean: T -> T, key: T -> seq<string>)
    requires IsNormal(items, clean, key) && i < |items|
    ensures clean(items[i]) == items[i] && "" !in key(items[i])
  {
  }

  lemma IndexOfIs<T>(items: seq<T>, key: T -> seq<string>, k: seq<string>, i: nat)
    requires i < |items| && key(items[i]) == k && forall j :: 0 <= j < i ==> key(items[j]) != k
    ensures IndexOf(items, key, k) == i
  {
    IndexOfIsFirst(items, key, k);
  }

  /** The three find*Index loops: the first entry whose trimmed name agrees ignoring case, or -1. */
  method FindIndex<T>(items: seq<T>, key: T -> seq<string>, k: seq<string>) returns (index: int)
    ensures index == IndexOf(items, key, k)
  {
    for i := 0 to |items|
      invariant forall j :: 0 <= j < i ==> key(items[j]) != k
    {
      if key(items[i]) == k {
        IndexOfIs(items, key, k, i);
        return i;
      }
    }
    IndexOfIsFirst(items, key, k);
    return -1;
  }

  lemma NothingNormal<T>(clean: T -> T, key: T -> seq<string>)
    ensures NormalList([], clean, key) == []
  {
  }
}
