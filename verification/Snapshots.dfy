/**
  Published snapshots of the shared data, with the aliasing in the hub: the corpus is a slice
  whose backing array is shared between successive snapshots, tables and sets are references.
*/
module Snapshots {
  import opened Corpus
  import opened Cover

  /** A Go map used as a set. */
  class GoSet {
    var keys: set<Data>

    constructor (keys: set<Data>)
      ensures this.keys == keys
    {
      this.keys := keys;
    }
  }

  /** What a reader gets hold of: a slice of a backing array, and references. */
  datatype Snapshot = Snapshot(arr: array<Input>, len: nat, cover: array<Byte>, bad: GoSet, supp: GoSet)

  /** What a reader sees through a snapshot. */
  datatype View = View(corpus: seq<Input>, cover: seq<Byte>, bad: set<Data>, supp: set<Data>)

  datatype Published = Published(snap: Snapshot, view: View)

  ghost predicate Reads(s: Snapshot, v: View)
    reads s.arr, s.cover, s.bad, s.supp
  {
    s.len <= s.arr.Length && v == View(s.arr[..s.len], s.cover[..], s.bad.keys, s.supp.keys)
  }

  /** A copy of the table, raised by an input's coverage. */
  method RaisedCopy(counters: bool, table: array<Byte>, cur: seq<Byte>) returns (copy: array<Byte>)
    requires table.Length == |cur| == COVER_SIZE
    ensures fresh(copy) && copy.Length == COVER_SIZE && copy[..] == Join(counters, table[..], cur)
  {
    copy := new Byte[COVER_SIZE](i requires 0 <= i < COVER_SIZE && table.Length == COVER_SIZE reads table => table[i]);
    assert copy[..] == table[..];
    var _ := UpdateMaxCover(counters, copy, cur);
  }

  /** append(arr[:len], x): in place when there is room, and then only the entry at len is written. */
  method AppendTo(arr: array<Input>, len: nat, x: Input, spare: nat) returns (res: array<Input>)
    requires len <= arr.Length
    modifies arr
    ensures if len < arr.Length then res == arr else fresh(res)
    ensures len < res.Length && res[..len + 1] == old(arr[..len]) + [x]
    ensures forall n | 0 <= n <= len :: arr[..n] == old(arr[..n])
  {
    if len < arr.Length {
      arr[len] := x;
      res := arr;
    } else {
      res := new Input[len + 1 + spare](i requires 0 <= i reads arr => if i < arr.Length then arr[i] else x);
    }
  }

  /** A copy of the corpus that is no longer than the corpus, with the new scores. */
  method RescoredCopy(arr: array<Input>, len: nat, scores: seq<Input>) returns (copy: array<Input>)
    requires |scores| == len <= arr.Length
    ensures fresh(copy) && copy[..] == scores
  {
    copy := new Input[len](i requires 0 <= i < len <= arr.Length reads arr => arr[i]);
    for k := 0 to len
      invariant copy[..k] == scores[..k]
    {
      copy[k] := scores[k];
    }
  }

  lemma ShowsNew(s: Snapshot, v: View, x: Input)
    requires 0 < s.len <= s.arr.Length && s.arr[..s.len] == v.corpus + [x] && v.bad == s.bad.keys
             && v.supp == s.supp.keys
    ensures Reads(s, v.(corpus := v.corpus + [x], cover := s.cover[..]))
  {
  }

  class Publisher {
    const counters: bool
    var ro: Snapshot
    ghost var history: seq<Published>
    ghost var arrays: set<array<Input>>
    ghost var tables: set<array<Byte>>
    ghost var sets: set<GoSet>

    /**
      Every snapshot ever published still shows what it showed when it was published. A snapshot on
      the current backing array is no longer than the current one, so appending never touches it.
    */
    ghost predicate Valid()
      reads this, arrays, tables, sets
    {
      && history != [] && history[|history| - 1].snap == ro
      && forall k | 0 <= k < |history| :: Intact(history[k], ro)
    }

    ghost predicate Intact(p: Published, cur: Snapshot)
      reads this, arrays, tables, sets
    {
      var s := p.snap;
      && s.arr in arrays && s.cover in tables && s.bad in sets && s.supp in sets
      && s.cover.Length == COVER_SIZE
      && Reads(s, p.view)
      && (s.arr == cur.arr ==> s.len <= cur.len)
    }

    constructor (counters: bool)
      ensures this.counters == counters && Valid() && fresh(arrays) && fresh(tables) && fresh(sets)
      ensures |history| == 1 && history[0].view == View([], Zeros(), {}, {})
    {
      this.counters := counters;
      var arr := new Input[0];
      var cover := new Byte[COVER_SIZE](_ => 0);
      var bad := new GoSet({});
      var supp := new GoSet({});
      ro := Snapshot(arr, 0, cover, bad, supp);
      history := [Published(Snapshot(arr, 0, cover, bad, supp), View([], Zeros(), {}, {}))];
      arrays, tables, sets := {arr}, {cover}, {bad, supp};
      new;
      assert cover[..] == Zeros();
    }

    /** Publishes a snapshot, whose view is recorded. */
    ghost method Record(view: View)
      requires Intact(Published(ro, view), ro)
      requires forall k | 0 <= k < |history| :: Intact(history[k], ro)
      modifies this`history
      ensures Valid() && history == old(history) + [Published(ro, view)]
    {
      history := history + [Published(ro, view)];
    }

    /**
      A new input: appended in place when the backing array has room, into a larger copy otherwise
      (by how much larger is up to the runtime). The table is copied before it is raised.
    */
    method Take(input: Input, spare: nat)
      requires Valid() && |input.cover| == COVER_SIZE
      modifies this, ro.arr
      ensures Valid() && fresh(arrays - old(arrays)) && fresh(tables - old(tables)) && sets == old(sets)
      ensures |history| == |old(history)| + 1 && history[..|old(history)|] == old(history)
      ensures var v := old(history)[|old(history)| - 1].view;
              |v.cover| == COVER_SIZE
              && history[|old(history)|].view
                == v.(corpus := v.corpus + [input], cover := Join(counters, v.cover, input.cover))
    {
      ghost var last := history[|history| - 1];
      assert Intact(last, ro);
      Grow(input, spare);
      ShowsNew(ro, last.view, input);
      Record(last.view.(corpus := last.view.corpus + [input], cover := ro.cover[..]));
    }

    /** Both parts of taking an input, before the new snapshot is published. */
    method Grow(input: Input, spare: nat)
      requires Valid() && ro.cover.Length == |input.cover| == COVER_SIZE
      modifies this`ro, this`arrays, this`tables, ro.arr
      ensures fresh(arrays - old(arrays)) && fresh(tables - old(tables)) && ro.arr in arrays && ro.cover in tables
      ensures ro == old(ro).(arr := ro.arr, len := old(ro.len) + 1, cover := ro.cover) && ro.len <= ro.arr.Length
      ensures ro.arr[..ro.len] == old(ro.arr[..ro.len]) + [input] && ro.cover.Length == COVER_SIZE
      ensures ro.cover[..] == Join(counters, old(ro.cover[..]), input.cover)
      ensures forall k | 0 <= k < |history| :: Intact(history[k], ro)
    {
      assert Intact(history[|history| - 1], ro);
      AppendInput(input, spare);
      RaiseTable(input.cover);
    }

    /** The table part of taking an input. */
    method RaiseTable(cover: seq<Byte>)
      requires ro.cover in tables && ro.cover.Length == |cover| == COVER_SIZE
      requires forall k | 0 <= k < |history| :: Intact(history[k], ro)
      modifies this`ro, this`tables
      ensures fresh(tables - old(tables)) && ro.cover in tables
      ensures ro == old(ro).(cover := ro.cover) && ro.cover.Length == COVER_SIZE
      ensures ro.cover[..] == Join(counters, old(ro.cover[..]), cover)
      ensures forall k | 0 <= k < |history| :: Intact(history[k], ro)
    {
      var raised := RaisedCopy(counters, ro.cover, cover);
      tables := tables + {raised};
      ro := ro.(cover := raised);
      forall k | 0 <= k < |history| ensures Intact(history[k], ro) {
        assert old(Intact(history[k], ro));
      }
    }

    /** The slice part of taking an input: earlier snapshots show what they showed. */
    method AppendInput(input: Input, spare: nat)
      requires Valid()
      modifies this`ro, this`arrays, ro.arr
      ensures fresh(arrays - old(arrays)) && old(arrays) <= arrays && ro.arr in arrays
      ensures ro == old(ro).(arr := ro.arr, len := old(ro.len) + 1)
      ensures ro.len <= ro.arr.Length && ro.arr[..ro.len] == old(ro.arr[..ro.len]) + [input]
      ensures forall k | 0 <= k < |history| :: Intact(history[k], ro)
    {
      assert Intact(history[|history| - 1], ro);
      var arr := AppendTo(ro.arr, ro.len, input, spare);
      arrays := arrays + {arr};
      ro := ro.(arr := arr, len := ro.len + 1);
      forall k | 0 <= k < |history| ensures Intact(history[k], ro) {
        assert old(Intact(history[k], ro));
      }
    }

    /** Rescoring works on a copy of exactly the corpus, published when it is finished. */
    method Rescore(scores: seq<Input>)
      requires Valid() && |scores| == ro.len
      modifies this
      ensures Valid() && fresh(arrays - old(arrays)) && tables == old(tables) && sets == old(sets)
      ensures |history| == |old(history)| + 1 && history[..|old(history)|] == old(history)
      ensures history[|old(history)|].view == old(history)[|old(history)| - 1].view.(corpus := scores)
    {
      ghost var last := history[|history| - 1];
      assert Intact(last, ro);
      var corpus := RescoredCopy(ro.arr, ro.len, scores);
      arrays := arrays + {corpus};
      ro := ro.(arr := corpus, len := corpus.Length);
      Record(last.view.(corpus := scores));
    }

    /** A crasher: the sets that change are rebuilt as new maps. */
    method Crash(data: Data, suppression: Data, hanging: bool, flagDup: bool)
      requires Valid() && (hanging || !flagDup)
      modifies this
      ensures Valid() && arrays == old(arrays) && tables == old(tables) && fresh(sets - old(sets))
      ensures |history| == |old(history)| + 1 && history[..|old(history)|] == old(history)
      ensures var v := old(history)[|old(history)| - 1].view;
              history[|old(history)|].view == v.(bad := if hanging then v.bad + {data} else v.bad,
                                                supp := if flagDup then v.supp else v.supp + {suppression})
    {
      ghost var last := history[|history| - 1];
      assert Intact(last, ro);
      var bad, supp := ro.bad, ro.supp;
      if hanging {
        bad := new GoSet(ro.bad.keys + {data});
      }
      if !flagDup {
        supp := new GoSet(ro.supp.keys + {suppression});
      }
      sets := sets + {bad, supp};
      ro := ro.(bad := bad, supp := supp);
      Record(last.view.(bad := bad.keys, supp := supp.keys));
    }
  }
}
