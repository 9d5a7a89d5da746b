/** Reconciling the log with a fuzzy snapshot (command/replay.go): a record is
    applied only to the shards whose anchor does not already cover it, and is
    split when it needs some of its keys only. */
module Replay {
  import opened Seqs
  import opened Options
  import opened Records

  type Anchors = map<Ref, nat>

  /** What `narrow` says to do with a record. */
  datatype Narrowed<A> = Skip | Keep(args: seq<A>) | Refuse

  /** The filter installed by restore: a Go map read, so a missing shard is 0. */
  function AnchorOf(anchors: Anchors, ref: Ref): nat {
    if ref in anchors then anchors[ref] else 0
  }

  function Wanted(anchors: Anchors, off: nat): Ref -> bool {
    (ref: Ref) => off >= AnchorOf(anchors, ref)
  }

  function CountWanted<A(==), V>(sem: Semantics<A, V>, db: nat, keys: seq<A>, want: Ref -> bool): nat {
    if keys == [] then 0
    else CountWanted(sem, db, keys[..|keys| - 1], want)
         + (if want(Ref(db, sem.shardOf(keys[|keys| - 1]))) then 1 else 0)
  }

  /** splitKeys: the record rebuilt from the groups whose shards still need it. */
  function SplitOf<A(==), V>(sem: Semantics<A, V>, r: Rec<A>, want: Ref -> bool): Narrowed<A>
    requires |r.args| >= 1
  {
    if !GroupShaped(r.d) || !Whole(|r.args| - 1, StepOf(r.d)) then Refuse
    else
      var fs := Filter(sem, r.db, GroupsOf(r.d, r.args), want);
      if fs == [] then Skip else Keep([r.args[0]] + Flatten(fs))
  }

  function NarrowOf<A(==), V>(sem: Semantics<A, V>, r: Rec<A>, want: Ref -> bool): Narrowed<A>
    requires |r.args| >= 1
  {
    var keys := KeysOf(r.d, r.args);
    var n := CountWanted(sem, r.db, keys, want);
    if keys == [] || n == |keys| then Keep(r.args)
    else if n == 0 then Skip
    else SplitOf(sem, r, want)
  }

  /** One record against a filter; `None` is a replay error. */
  function ReplayOne<A(==), V>(sem: Semantics<A, V>, anchors: Anchors, off: nat, r: Rec<A>, st: State<A, V>)
    : Option<State<A, V>>
  {
    if r.args == [] then None else
      match NarrowOf(sem, r, Wanted(anchors, off))
      case Skip => Some(st)
      case Refuse => None
      case Keep(args) => Run(sem, r.(args := args), st)
  }

  /** The replayer: its filter, its reused split buffer, and the keyspace it
      writes into. */
  class Replayer<A(==), V> {
    const sem: Semantics<A, V>
    var anchors: Option<Anchors>
    var split: seq<A>
    var keyspace: State<A, V>

    constructor (sem: Semantics<A, V>, keyspace: State<A, V>)
      ensures this.sem == sem && this.keyspace == keyspace && anchors == None
    {
      this.sem := sem;
      this.keyspace := keyspace;
      anchors := None;
      split := [];
    }

    method SetFilter(a: Option<Anchors>)
      modifies this`anchors
      ensures anchors == a
    {
      anchors := a;
    }

    method SplitKeys(r: Rec<A>, offset: nat, a: Anchors) returns (n: Narrowed<A>)
      requires |r.args| >= 1
      modifies this`split
      ensures n == SplitOf(sem, r, Wanted(a, offset))
    {
      var step := r.d.step;
      if step <= 0 {
        step := 1;
      }
      WholeIsMod(|r.args| - 1, step);
      if r.d.firstKey != 1 || r.d.lastKey != -1 || (|r.args| - 1) % step != 0 {
        return Refuse;
      }
      split := [r.args[0]];
      var i := 1;
      ghost var want := Wanted(a, offset);
      while i < |r.args|
        invariant 1 <= i && Aligned(r.args, i, step)
        invariant split + Remaining(sem, r.db, r.args, i, step, want)
               == [r.args[0]] + Remaining(sem, r.db, r.args, 1, step, want)
        invariant |split| >= 1
        decreases |r.args| - i
      {
        SplitStep(sem, r.db, r.args, i, step, want);
        if offset >= AnchorOf(a, Ref(r.db, sem.shardOf(r.args[i]))) {
          ConcatAssoc(split, r.args[i..i + step], Remaining(sem, r.db, r.args, i + step, step, want));
          split := split + r.args[i..i + step];
        } else {
          assert [] + Remaining(sem, r.db, r.args, i + step, step, want)
              == Remaining(sem, r.db, r.args, i + step, step, want);
        }
        i := i + step;
      }
      assert split == [r.args[0]] + Remaining(sem, r.db, r.args, 1, step, want);
      FlattenEmpty(Filter(sem, r.db, GroupsOf(r.d, r.args), want));
      if |split| == 1 {
        return Skip;
      }
      return Keep(split);
    }

    method Narrow(r: Rec<A>, offset: nat, a: Anchors) returns (n: Narrowed<A>)
      requires |r.args| >= 1
      modifies this`split
      ensures n == NarrowOf(sem, r, Wanted(a, offset))
    {
      var keys := ExtractKeys(r.d, r.args);
      if |keys| == 0 {
        return Keep(r.args);
      }
      var wanted, count := 0, 0;
      while count < |keys|
        invariant 0 <= count <= |keys|
        invariant wanted == CountWanted(sem, r.db, keys[..count], Wanted(a, offset))
      {
        assert keys[..count + 1][..count] == keys[..count];
        if offset >= AnchorOf(a, Ref(r.db, sem.shardOf(keys[count]))) {
          wanted := wanted + 1;
        }
        count := count + 1;
      }
      assert keys[..count] == keys;
      if wanted == count {
        return Keep(r.args);
      }
      if wanted == 0 {
        return Skip;
      }
      n := SplitKeys(r, offset, a);
    }

    /** Apply: false is an error, and leaves the keyspace as it was. */
    method Apply(offset: nat, r: Rec<A>) returns (ok: bool)
      modifies this`split, this`keyspace
      ensures var res := if old(anchors).None? then Run(sem, r, old(keyspace))
                         else ReplayOne(sem, old(anchors).value, offset, r, old(keyspace));
              && ok == res.Some?
              && keyspace == (if ok then res.value else old(keyspace))
    {
      if r.args == [] {
        return false;
      }
      var args := r.args;
      if anchors.Some? {
        var n := Narrow(r, offset, anchors.value);
        match n {
          case Skip => return true;
          case Refuse => return false;
          case Keep(kept) => args := kept;
        }
      }
      var res := Run(sem, r.(args := args), keyspace);
      if res.None? {
        return false;
      }
      keyspace := res.value;
      return true;
    }
  }

  predicate Aligned<A>(args: seq<A>, i: nat, step: int)
    requires step > 0
  {
    i <= |args| && Whole(|args| - i, step)
  }

  /** What the splitting loop still has to append from argument `i` on. */
  function Remaining<A(==), V>(sem: Semantics<A, V>, db: nat, args: seq<A>, i: nat, step: int, want: Ref -> bool)
    : (rest: seq<A>)
    requires step > 0 && i <= |args|
    ensures i == |args| ==> rest == []
  {
    Flatten(Filter(sem, db, Chop(args[i..], step), want))
  }

  /** One turn of the splitting loop. */
  lemma SplitStep<A, V>(sem: Semantics<A, V>, db: nat, args: seq<A>, i: nat, step: int, want: Ref -> bool)
    requires step > 0 && i < |args| && Aligned(args, i, step)
    ensures Aligned(args, i + step, step)
    ensures Remaining(sem, db, args, i, step, want)
         == (if want(Ref(db, sem.shardOf(args[i]))) then args[i..i + step] else [])
            + Remaining(sem, db, args, i + step, step, want)
  {
    var rest := args[i..];
    assert rest[step..] == args[i + step..];
    assert rest[1..step] == args[i + 1..i + step];
    assert Group(rest[0], rest[1..step]).Args() == args[i..i + step];
    var gs := Chop(rest, step);
    assert gs[1..] == Chop(args[i + step..], step);
    var tail := Filter(sem, db, gs[1..], want);
    assert ([gs[0]] + tail)[1..] == tail;
    assert [] + tail == tail;
  }

  lemma {:induction false} FlattenEmpty<A>(gs: seq<Group<A>>)
    ensures Flatten(gs) == [] <==> gs == []
  {
    if gs != [] {
      assert |Flatten(gs)| >= |gs[0].Args()|;
    }
  }

  // --------------------------------------------------- narrowing keeps the meaning

  function Heads<A>(gs: seq<Group<A>>): seq<A>
  {
    if gs == [] then [] else [gs[0].key] + Heads(gs[1..])
  }

  /** The keys of a group-shaped record are the heads of its groups. */
  lemma {:induction false} KeysAreHeads<A>(args: seq<A>, i: nat, step: int)
    requires 1 <= i <= |args| && step > 0 && Whole(|args| - i, step)
    ensures KeysFrom(args, i, |args| - 1, step) == Heads(Chop(args[i..], step))
    decreases |args| - i
  {
    if i < |args| {
      var rest := args[i..];
        assert rest[step..] == args[i + step..];
      KeysAreHeads(args, i + step, step);
      var gs := Chop(rest, step);
      assert gs[1..] == Chop(rest[step..], step);
      assert gs[0].key == args[i];
    }
  }

  lemma {:induction false} CountAll<A, V>(sem: Semantics<A, V>, db: nat, keys: seq<A>, want: Ref -> bool)
    ensures CountWanted(sem, db, keys, want) <= |keys|
    ensures CountWanted(sem, db, keys, want) == |keys| <==> forall k | k in keys :: want(Ref(db, sem.shardOf(k)))
    ensures CountWanted(sem, db, keys, want) == 0 <==> forall k | k in keys :: !want(Ref(db, sem.shardOf(k)))
  {
    if keys != [] {
      var init, last := keys[..|keys| - 1], keys[|keys| - 1];
      CountAll(sem, db, init, want);
      assert keys == init + [last];
    }
  }

  lemma {:induction false} FilterAll<A, V>(sem: Semantics<A, V>, db: nat, gs: seq<Group<A>>, want: Ref -> bool)
    ensures (forall k | k in Heads(gs) :: want(Ref(db, sem.shardOf(k)))) ==> Filter(sem, db, gs, want) == gs
    ensures (forall k | k in Heads(gs) :: !want(Ref(db, sem.shardOf(k)))) ==> Filter(sem, db, gs, want) == []
    ensures Filter(sem, db, gs, want) == [] ==> forall k | k in Heads(gs) :: !want(Ref(db, sem.shardOf(k)))
  {
    if gs != [] {
      FilterAll(sem, db, gs[1..], want);
      assert Heads(gs) == [gs[0].key] + Heads(gs[1..]);
      assert Heads(gs)[0] == gs[0].key;
    }
  }

  lemma {:induction false} FilterSizes<A, V>(sem: Semantics<A, V>, db: nat, gs: seq<Group<A>>, want: Ref -> bool, step: int)
    requires AllOf(gs, step)
    ensures AllOf(Filter(sem, db, gs, want), step)
  {
    if gs != [] {
      FilterSizes(sem, db, gs[1..], want, step);
    }
  }

  /** A group-shaped record is never refused, and what is run is exactly its
      wanted groups. */
  lemma NarrowGroups<A, V>(sem: Semantics<A, V>, anchors: Anchors, off: nat, r: Rec<A>, st: State<A, V>)
    requires WellFormed(r) && r.d.locality == ShardLocal && GroupShaped(r.d)
    ensures ReplayOne(sem, anchors, off, r, st)
         == ApplyGroups(sem, r.d, r.db, r.args[0],
                        Filter(sem, r.db, GroupsOf(r.d, r.args), Wanted(anchors, off)), st)
  {
    var want := Wanted(anchors, off);
    var step, gs := StepOf(r.d), GroupsOf(r.d, r.args);
    KeysAreHeads(r.args, 1, step);
    var keys := KeysOf(r.d, r.args);
    assert keys == Heads(gs);
    CountAll(sem, r.db, keys, want);
    FilterAll(sem, r.db, gs, want);
    var n := CountWanted(sem, r.db, keys, want);
    if n != |keys| && n != 0 {
      var fs := Filter(sem, r.db, gs, want);
      assert NarrowOf(sem, r, want) == Keep([r.args[0]] + Flatten(fs));
      ChopSizes(r.args[1..], step);
      FilterSizes(sem, r.db, gs, want, step);
      RunSplit(sem, r, fs, st);
    }
  }

  /** Running a record rebuilt from whole groups runs those groups. */
  lemma RunSplit<A, V>(sem: Semantics<A, V>, r: Rec<A>, fs: seq<Group<A>>, st: State<A, V>)
    requires |r.args| >= 1 && r.d.locality == ShardLocal && GroupShaped(r.d)
    requires fs != [] && AllOf(fs, StepOf(r.d))
    ensures Run(sem, r.(args := [r.args[0]] + Flatten(fs)), st) == ApplyGroups(sem, r.d, r.db, r.args[0], fs, st)
  {
    var cut := r.(args := [r.args[0]] + Flatten(fs));
    ChopFlatten(fs, StepOf(r.d));
    FlattenEmpty(fs);
    assert cut.args[1..] == Flatten(fs);
    KeysNonEmpty(cut);
  }

  lemma KeysNonEmpty<A>(r: Rec<A>)
    requires GroupShaped(r.d) && |r.args| >= 2
    ensures KeysOf(r.d, r.args) != []
  {
    assert LastKeyOf(r.d, |r.args|) == |r.args| - 1;
  }

  /** A shard-local record, replayed through the filter onto a keyspace that is
      right for the wanted shards, makes them right for the next record, and
      leaves every other shard as it was.  It is never refused. */
  lemma ReplayLocal<A(!new), V>(sem: Semantics<A, V>, anchors: Anchors, off: nat, r: Rec<A>,
                                s: State<A, V>, t: State<A, V>)
    requires r.d.locality == ShardLocal
    requires Run(sem, r, s).Some?
    requires Agree(sem, s, t, Wanted(anchors, off))
    ensures ReplayOne(sem, anchors, off, r, t).Some?
    ensures Agree(sem, Run(sem, r, s).value, ReplayOne(sem, anchors, off, r, t).value, Wanted(anchors, off))
    ensures forall ref: Ref | !Wanted(anchors, off)(ref) ::
              AgreeOn(sem, t, ReplayOne(sem, anchors, off, r, t).value, ref)
  {
    var want := Wanted(anchors, off);
    if GroupShaped(r.d) {
      NarrowGroups(sem, anchors, off, r, t);
      FilteredGroups(sem, r.d, r.db, r.args[0], GroupsOf(r.d, r.args), want, s, t);
    } else {
      var keys := KeysOf(r.d, r.args);
      CountAll(sem, r.db, keys, want);
      assert keys == [keys[0]];
      if want(Ref(r.db, sem.shardOf(keys[0]))) {
        assert CountWanted(sem, r.db, keys, want) == 1;
        GroupAgree(sem, r.d, r.db, r.args, keys[0], want, s, t);
      } else {
        assert keys[0] in keys;
        assert CountWanted(sem, r.db, keys, want) == 0;
        GroupSkip(sem, r.d, r.db, r.args, keys[0], want, s, t);
      }
    }
  }
}
