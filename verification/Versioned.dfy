/** The last-writer-wins rule that src/store.rs applies to flags and to segments alike. */
module Versioned {
  datatype Kind<!T> = Kind(key: T -> string, updatedAt: T -> int)

  function Max(a: int, b: int): int { if a < b then b else a }

  ghost function MaxOr(values: set<int>, default: int): (max: int)
    ensures values == {} ==> max == default
    ensures values != {} ==> max in values && forall v <- values :: v <= max
  {
    if v :| v in values then
      var rest := values - {v};
      assert forall u <- values :: u == v || u in rest;
      if rest == {} then v else Max(v, MaxOr(rest, default))
    else default
  }

  ghost predicate OwnKeys<T>(kind: Kind<T>, stored: map<string, T>) {
    forall key <- stored :: key != "" && kind.key(stored[key]) == key
  }

  ghost predicate Bounds<T>(kind: Kind<T>, stored: map<string, T>, version: int) {
    forall key <- stored :: kind.updatedAt(stored[key]) <= version
  }

  // ---------------------------------------------------------------------------------------------------
  // Replacing everything

  ghost function Overlay<T>(kind: Kind<T>, items: seq<T>): map<string, T> {
    if items == [] then map[]
    else
      var last := items[|items| - 1];
      var before := Overlay(kind, items[..|items| - 1]);
      if kind.key(last) == "" then before else before[kind.key(last) := last]
  }

  ghost function Newest<T>(kind: Kind<T>, least: int, items: seq<T>): int {
    if items == [] then least
    else
      var last := items[|items| - 1];
      var before := Newest(kind, least, items[..|items| - 1]);
      if kind.key(last) == "" then before else Max(before, kind.updatedAt(last))
  }

  /** Each key holds the last item that carries it. */
  lemma {:induction false} OverlayIsLast<T>(kind: Kind<T>, items: seq<T>)
    ensures OwnKeys(kind, Overlay(kind, items))
    ensures forall i :: 0 <= i < |items| && kind.key(items[i]) != "" ==> kind.key(items[i]) in Overlay(kind, items)
    ensures forall key <- Overlay(kind, items) :: exists i :: 0 <= i < |items| && IsLast(kind, items, key, i)
                                                    && Overlay(kind, items)[key] == items[i]
  {
    if items != [] {
      var n := |items| - 1;
      OverlayIsLast(kind, items[..n]);
      forall key | key in Overlay(kind, items)
        ensures exists i :: 0 <= i < |items| && IsLast(kind, items, key, i) && Overlay(kind, items)[key] == items[i]
      {
        if kind.key(items[n]) == key {
          assert IsLast(kind, items, key, n);
        } else {
          var i :| 0 <= i < n && IsLast(kind, items[..n], key, i) && Overlay(kind, items[..n])[key] == items[..n][i];
          assert IsLast(kind, items[..n], key, i);
          assert IsLast(kind, items, key, i);
        }
      }
    }
  }

  ghost predicate IsLast<T>(kind: Kind<T>, items: seq<T>, key: string, i: nat) {
    && i < |items|
    && kind.key(items[i]) == key
    && forall j :: i < j < |items| ==> kind.key(items[j]) != key
  }

  lemma {:induction false} NewestBounds<T>(kind: Kind<T>, least: int, items: seq<T>)
    ensures least <= Newest(kind, least, items)
    ensures forall i :: 0 <= i < |items| && kind.key(items[i]) != "" ==>
            kind.updatedAt(items[i]) <= Newest(kind, least, items)
    ensures Newest(kind, least, items) == least
            || exists i :: 0 <= i < |items| && kind.key(items[i]) != ""
                           && kind.updatedAt(items[i]) == Newest(kind, least, items)
  {
    if items != [] {
      var n := |items| - 1;
      NewestBounds(kind, least, items[..n]);
      assert forall i :: 0 <= i < n ==> items[..n][i] == items[i];
    }
  }

  // ---------------------------------------------------------------------------------------------------
  // Merging by version

  ghost predicate Replaces<T>(kind: Kind<T>, stored: map<string, T>, item: T) {
    kind.key(item) != ""
    && (kind.key(item) in stored ==> kind.updatedAt(stored[kind.key(item)]) < kind.updatedAt(item))
  }

  ghost predicate Clashes<T>(kind: Kind<T>, stored: map<string, T>, item: T) {
    && kind.key(item) != ""
    && kind.key(item) in stored
    && kind.updatedAt(stored[kind.key(item)]) == kind.updatedAt(item)
    && stored[kind.key(item)] != item
  }

  ghost function Merge<T>(kind: Kind<T>, stored: map<string, T>, incoming: seq<T>): map<string, T> {
    if incoming == [] then stored
    else
      var last := incoming[|incoming| - 1];
      var before := Merge(kind, stored, incoming[..|incoming| - 1]);
      if Replaces(kind, before, last) then before[kind.key(last) := last] else before
  }

  ghost predicate AnyReplaces<T>(kind: Kind<T>, stored: map<string, T>, incoming: seq<T>) {
    incoming != [] &&
    var last := |incoming| - 1;
    AnyReplaces(kind, stored, incoming[..last]) || Replaces(kind, Merge(kind, stored, incoming[..last]), incoming[last])
  }

  ghost predicate AnyClashes<T>(kind: Kind<T>, stored: map<string, T>, incoming: seq<T>) {
    incoming != [] &&
    var last := |incoming| - 1;
    AnyClashes(kind, stored, incoming[..last]) || Clashes(kind, Merge(kind, stored, incoming[..last]), incoming[last])
  }

  lemma MergeStep<T>(kind: Kind<T>, stored: map<string, T>, incoming: seq<T>, i: nat)
    requires i < |incoming|
    ensures var before := Merge(kind, stored, incoming[..i]);
            && Merge(kind, stored, incoming[..i + 1])
               == (if Replaces(kind, before, incoming[i]) then before[kind.key(incoming[i]) := incoming[i]] else before)
            && AnyReplaces(kind, stored, incoming[..i + 1])
               == (AnyReplaces(kind, stored, incoming[..i]) || Replaces(kind, before, incoming[i]))
            && AnyClashes(kind, stored, incoming[..i + 1])
               == (AnyClashes(kind, stored, incoming[..i]) || Clashes(kind, before, incoming[i]))
  {
    assert incoming[..i + 1][..i] == incoming[..i];
  }

  lemma {:induction false} MergeKeepsOwnKeys<T>(kind: Kind<T>, stored: map<string, T>, incoming: seq<T>)
    requires OwnKeys(kind, stored)
    ensures OwnKeys(kind, Merge(kind, stored, incoming))
  {
    if incoming != [] {
      MergeKeepsOwnKeys(kind, stored, incoming[..|incoming| - 1]);
    }
  }

  // ---------------------------------------------------------------------------------------------------
  // What a merge means

  ghost predicate Carries<T>(kind: Kind<T>, incoming: seq<T>, key: string, i: int) {
    0 <= i < |incoming| && key != "" && kind.key(incoming[i]) == key
  }

  lemma CarriesPrefix<T>(kind: Kind<T>, incoming: seq<T>, key: string)
    requires incoming != []
    ensures var n := |incoming| - 1;
            forall i {:trigger Carries(kind, incoming[..n], key, i)} {:trigger Carries(kind, incoming, key, i)} ::
              Carries(kind, incoming[..n], key, i) <==> i < n && Carries(kind, incoming, key, i)
  {
  }

  /** The stored item survives: nothing incoming is newer. */
  ghost predicate StoredWins<T>(kind: Kind<T>, stored: map<string, T>, incoming: seq<T>, key: string) {
    && key in stored
    && forall i :: Carries(kind, incoming, key, i) ==> kind.updatedAt(incoming[i]) <= kind.updatedAt(stored[key])
  }

  /** Incoming item `w` survives: newer than everything before it, and not older than anything after it. */
  ghost predicate IncomingWins<T>(kind: Kind<T>, stored: map<string, T>, incoming: seq<T>, key: string, w: int) {
    && Carries(kind, incoming, key, w)
    && (key in stored ==> kind.updatedAt(stored[key]) < kind.updatedAt(incoming[w]))
    && (forall i :: Carries(kind, incoming, key, i) ==> kind.updatedAt(incoming[i]) <= kind.updatedAt(incoming[w]))
    && (forall i :: i < w && Carries(kind, incoming, key, i) ==>
        kind.updatedAt(incoming[i]) < kind.updatedAt(incoming[w]))
  }

  /** A merge keeps, for each key, the first item of the greatest version among the stored and incoming ones. */
  lemma {:induction false} MergeKeepsTheLatest<T>(kind: Kind<T>, stored: map<string, T>, incoming: seq<T>, key: string)
    ensures key in Merge(kind, stored, incoming) <==> key in stored || exists i :: Carries(kind, incoming, key, i)
    ensures key in Merge(kind, stored, incoming) ==>
              || (StoredWins(kind, stored, incoming, key) && Merge(kind, stored, incoming)[key] == stored[key])
              || exists w :: IncomingWins(kind, stored, incoming, key, w)
                             && Merge(kind, stored, incoming)[key] == incoming[w]
  {
    if incoming != [] {
      var n := |incoming| - 1;
      var before := Merge(kind, stored, incoming[..n]);
      MergeKeepsTheLatest(kind, stored, incoming[..n], key);
      CarriesPrefix(kind, incoming, key);
      if Replaces(kind, before, incoming[n]) && kind.key(incoming[n]) == key {
        NewestWins(kind, stored, incoming, key);
      } else if key in before {
        if StoredWins(kind, stored, incoming[..n], key) && before[key] == stored[key] {
          assert StoredWins(kind, stored, incoming, key);
        } else {
          var w :| IncomingWins(kind, stored, incoming[..n], key, w) && before[key] == incoming[..n][w];
          assert IncomingWins(kind, stored, incoming[..n], key, w);
          assert IncomingWins(kind, stored, incoming, key, w);
        }
      }
    }
  }

  lemma NewestWins<T>(kind: Kind<T>, stored: map<string, T>, incoming: seq<T>, key: string)
    requires incoming != [] && kind.key(incoming[|incoming| - 1]) == key != ""
    requires forall i :: Carries(kind, incoming, key, i) && i < |incoming| - 1 ==>
               kind.updatedAt(incoming[i]) < kind.updatedAt(incoming[|incoming| - 1])
    requires key in stored ==> kind.updatedAt(stored[key]) < kind.updatedAt(incoming[|incoming| - 1])
    ensures IncomingWins(kind, stored, incoming, key, |incoming| - 1)
  {
  }

  lemma MergeMovesForward<T>(kind: Kind<T>, stored: map<string, T>, incoming: seq<T>, key: string)
    requires key in stored
    ensures key in Merge(kind, stored, incoming)
    ensures kind.updatedAt(stored[key]) <= kind.updatedAt(Merge(kind, stored, incoming)[key])
  {
    MergeKeepsTheLatest(kind, stored, incoming, key);
  }

  lemma {:induction false} MergeAppends<T>(kind: Kind<T>, stored: map<string, T>, first: seq<T>, second: seq<T>)
    ensures Merge(kind, stored, first + second) == Merge(kind, Merge(kind, stored, first), second)
    ensures AnyReplaces(kind, stored, first + second) <==>
        AnyReplaces(kind, stored, first) || AnyReplaces(kind, Merge(kind, stored, first), second)
    ensures AnyClashes(kind, stored, first + second) <==>
        AnyClashes(kind, stored, first) || AnyClashes(kind, Merge(kind, stored, first), second)
  {
    if second == [] {
      assert first + second == first;
    } else {
      var n := |second| - 1;
      MergeAppends(kind, stored, first, second[..n]);
      assert (first + second)[..|first| + n] == first + second[..n];
    }
  }

  /** Something was replaced exactly when the merge differs from what was stored. */
  lemma {:induction false} ReplacingIsChanging<T>(kind: Kind<T>, stored: map<string, T>, incoming: seq<T>)
    ensures AnyReplaces(kind, stored, incoming) <==> Merge(kind, stored, incoming) != stored
  {
    if incoming != [] {
      var n := |incoming| - 1;
      var before := Merge(kind, stored, incoming[..n]);
      ReplacingIsChanging(kind, stored, incoming[..n]);
      var key := kind.key(incoming[n]);
      if Replaces(kind, before, incoming[n]) {
        if key in stored {
          MergeMovesForward(kind, stored, incoming[..n], key);
        }
        assert Merge(kind, stored, incoming)[key] == incoming[n];
        assert key in stored ==> kind.updatedAt(stored[key]) < kind.updatedAt(incoming[n]);
      }
    }
  }

  /** No two different items, stored or incoming, share a key and a version. */
  ghost predicate Consistent<T>(kind: Kind<T>, stored: map<string, T>, incoming: seq<T>) {
    && (forall i, j :: 0 <= i < |incoming| && 0 <= j < |incoming| && kind.key(incoming[i]) != "" &&
                       kind.key(incoming[i]) == kind.key(incoming[j]) &&
                       kind.updatedAt(incoming[i]) == kind.updatedAt(incoming[j]) ==>
                       incoming[i] == incoming[j])
    && (forall i :: 0 <= i < |incoming| && kind.key(incoming[i]) in stored && kind.key(incoming[i]) != "" &&
                    kind.updatedAt(incoming[i]) == kind.updatedAt(stored[kind.key(incoming[i])]) ==>
                    incoming[i] == stored[kind.key(incoming[i])])
  }

  ghost function Keyed<T>(kind: Kind<T>, incoming: seq<T>): set<T> {
    set item | item in incoming && kind.key(item) != ""
  }

  lemma ConsistencyIsOfTheItems<T>(kind: Kind<T>, stored: map<string, T>, first: seq<T>, second: seq<T>)
    requires Consistent(kind, stored, first)
    requires Keyed(kind, first) == Keyed(kind, second)
    ensures Consistent(kind, stored, second)
  {
    forall i | 0 <= i < |second| && kind.key(second[i]) != "" ensures second[i] in first {
      assert second[i] in Keyed(kind, second);
    }
  }

  ghost predicate Latest<T>(kind: Kind<T>, stored: map<string, T>, incoming: seq<T>, key: string, item: T) {
    && (|| (key in stored && stored[key] == item)
        || exists i :: Carries(kind, incoming, key, i) && incoming[i] == item)
    && (key in stored ==> kind.updatedAt(stored[key]) <= kind.updatedAt(item))
    && (forall i :: Carries(kind, incoming, key, i) ==> kind.updatedAt(incoming[i]) <= kind.updatedAt(item))
  }

  lemma MergeIsLatest<T>(kind: Kind<T>, stored: map<string, T>, incoming: seq<T>, key: string)
    ensures key in Merge(kind, stored, incoming) ==>
            Latest(kind, stored, incoming, key, Merge(kind, stored, incoming)[key])
  {
    MergeKeepsTheLatest(kind, stored, incoming, key);
  }

  lemma LatestTransfers<T>(kind: Kind<T>, stored: map<string, T>, first: seq<T>, second: seq<T>, key: string, item: T)
    requires Keyed(kind, first) == Keyed(kind, second)
    requires Latest(kind, stored, first, key, item)
    ensures Latest(kind, stored, second, key, item)
  {
    SameCarriers(kind, first, second, key);
    SameCarriers(kind, second, first, key);
  }

  lemma LatestIsUnique<T>(kind: Kind<T>, stored: map<string, T>, incoming: seq<T>, key: string, a: T, b: T)
    requires key != "" && Consistent(kind, stored, incoming)
    requires Latest(kind, stored, incoming, key, a) && Latest(kind, stored, incoming, key, b)
    ensures a == b
  {
    assert kind.updatedAt(a) == kind.updatedAt(b);
  }

  /** Order and repetition do not matter to a consistent merge: only the set of items does. */
  lemma MergeIsAJoin<T>(kind: Kind<T>, stored: map<string, T>, first: seq<T>, second: seq<T>)
    requires OwnKeys(kind, stored) && Consistent(kind, stored, first)
    requires Keyed(kind, first) == Keyed(kind, second)
    ensures Merge(kind, stored, first) == Merge(kind, stored, second)
  {
    var m, m' := Merge(kind, stored, first), Merge(kind, stored, second);
    MergeKeepsOwnKeys(kind, stored, first);
    forall key
      ensures key in m <==> key in m'
      ensures key in m && key in m' ==> m[key] == m'[key]
    {
      SameKeys(kind, stored, first, second, key);
      if key in m {
        MergeIsLatest(kind, stored, first, key);
        MergeIsLatest(kind, stored, second, key);
        LatestTransfers(kind, stored, second, first, key, m'[key]);
        LatestIsUnique(kind, stored, first, key, m[key], m'[key]);
      }
    }
  }

  lemma SameKeys<T>(kind: Kind<T>, stored: map<string, T>, first: seq<T>, second: seq<T>, key: string)
    requires Keyed(kind, first) == Keyed(kind, second)
    ensures key in Merge(kind, stored, first) <==> key in Merge(kind, stored, second)
  {
    MergeKeepsTheLatest(kind, stored, first, key);
    MergeKeepsTheLatest(kind, stored, second, key);
    SameCarriers(kind, first, second, key);
    SameCarriers(kind, second, first, key);
  }

  lemma SameCarriers<T>(kind: Kind<T>, first: seq<T>, second: seq<T>, key: string)
    requires Keyed(kind, first) == Keyed(kind, second)
    ensures forall i :: Carries(kind, first, key, i) ==>
            exists j :: Carries(kind, second, key, j) && second[j] == first[i]
  {
    forall i | Carries(kind, first, key, i) ensures exists j :: Carries(kind, second, key, j) && second[j] == first[i] {
      assert first[i] in Keyed(kind, first);
      var j :| 0 <= j < |second| && second[j] == first[i];
      assert Carries(kind, second, key, j);
    }
  }

  // ---------------------------------------------------------------------------------------------------
  // Conflicts

  /** Item `i` meets a different item of its own key and version, and nothing newer came before it. */
  ghost predicate Contested<T>(kind: Kind<T>, stored: map<string, T>, incoming: seq<T>, i: int) {
    && 0 <= i < |incoming|
    && var key := kind.key(incoming[i]);
    && key != ""
    && (key in stored ==> kind.updatedAt(stored[key]) <= kind.updatedAt(incoming[i]))
    && (forall j :: j < i && Carries(kind, incoming, key, j) ==>
        kind.updatedAt(incoming[j]) <= kind.updatedAt(incoming[i]))
    && (|| (key in stored && Rival(kind, stored[key], incoming[i]))
        || exists j :: j < i && Carries(kind, incoming, key, j) && Rival(kind, incoming[j], incoming[i]))
  }

  ghost predicate Rival<T>(kind: Kind<T>, a: T, b: T) { kind.updatedAt(a) == kind.updatedAt(b) && a != b }

  /** A conflict is reported exactly when some item is contested. */
  lemma {:induction false} ConflictMeansContested<T>(kind: Kind<T>, stored: map<string, T>, incoming: seq<T>)
    requires OwnKeys(kind, stored)
    ensures AnyClashes(kind, stored, incoming) <==> exists i :: Contested(kind, stored, incoming, i)
  {
    if incoming != [] {
      var n := |incoming| - 1;
      var before := Merge(kind, stored, incoming[..n]);
      ConflictMeansContested(kind, stored, incoming[..n]);
      ContestedPrefix(kind, stored, incoming);
      if AnyClashes(kind, stored, incoming[..n]) {
        var i :| Contested(kind, stored, incoming[..n], i);
        assert Contested(kind, stored, incoming[..n], i) && Contested(kind, stored, incoming, i);
      } else if Clashes(kind, before, incoming[n]) {
        ClashIsContested(kind, stored, incoming);
      } else if Contested(kind, stored, incoming, n) {
        ContestedClashes(kind, stored, incoming, incoming[..n]);
      } else {
        assert forall i :: Contested(kind, stored, incoming, i) ==> i < n;
      }
    }
  }

  lemma ContestedPrefix<T>(kind: Kind<T>, stored: map<string, T>, incoming: seq<T>)
    requires incoming != []
    ensures forall i :: i < |incoming| - 1 ==>
              (Contested(kind, stored, incoming[..|incoming| - 1], i) <==> Contested(kind, stored, incoming, i))
  {
    var prefix := incoming[..|incoming| - 1];
    forall i: nat | i < |prefix| ensures Contested(kind, stored, prefix, i) <==> Contested(kind, stored, incoming, i) {
      assert forall j: nat, key :: j < i ==> (Carries(kind, prefix, key, j) <==> Carries(kind, incoming, key, j));
    }
  }

  lemma ClashIsContested<T>(kind: Kind<T>, stored: map<string, T>, incoming: seq<T>)
    requires OwnKeys(kind, stored) && incoming != []
    requires Clashes(kind, Merge(kind, stored, incoming[..|incoming| - 1]), incoming[|incoming| - 1])
    ensures Contested(kind, stored, incoming, |incoming| - 1)
  {
    var n := |incoming| - 1;
    var key := kind.key(incoming[n]);
    MergeKeepsTheLatest(kind, stored, incoming[..n], key);
    CarriesPrefix(kind, incoming, key);
    var held := Merge(kind, stored, incoming[..n])[key];
    if w :| IncomingWins(kind, stored, incoming[..n], key, w) && held == incoming[..n][w] {
      assert Carries(kind, incoming, key, w) && Rival(kind, incoming[w], incoming[n]);
    }
  }

  lemma ContestedClashes<T>(kind: Kind<T>, stored: map<string, T>, incoming: seq<T>, prefix: seq<T>)
    requires OwnKeys(kind, stored) && incoming != [] && prefix == incoming[..|incoming| - 1]
    requires Contested(kind, stored, incoming, |incoming| - 1)
    requires forall i :: !Contested(kind, stored, prefix, i)
    ensures Clashes(kind, Merge(kind, stored, prefix), incoming[|incoming| - 1])
  {
    var n := |incoming| - 1;
    var key := kind.key(incoming[n]);
    MergeKeepsTheLatest(kind, stored, prefix, key);
    CarriesPrefix(kind, incoming, key);
    var held := Merge(kind, stored, prefix)[key];
    if held == incoming[n] {
      if j :| j < n && Carries(kind, incoming, key, j) && Rival(kind, incoming[j], incoming[n]) {
        if w :| IncomingWins(kind, stored, prefix, key, w) && held == prefix[w] {
          assert Contested(kind, stored, prefix, if j < w then w else j);
        } else {
          assert Contested(kind, stored, prefix, j);
        }
      }
    }
  }

  lemma ConsistentHasNoConflict<T>(kind: Kind<T>, stored: map<string, T>, incoming: seq<T>)
    requires OwnKeys(kind, stored) && Consistent(kind, stored, incoming)
    ensures !AnyClashes(kind, stored, incoming)
  {
    ConflictMeansContested(kind, stored, incoming);
  }
}
