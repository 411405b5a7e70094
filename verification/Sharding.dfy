/** The sharding loop of `add_safetensors`: selected tensors are written to as few files as a greedy
    next-fit makes them, and the index is brought up to date. */
module Sharding {
  import opened PyValues
  import opened Text

  /** A loaded tensor; `size` is its size in bytes as read, before any dequantisation. */
  datatype Tensor = Tensor(data: int, size: nat)

  /** What is written for one name, with the size it is accounted for. */
  datatype Entry = Entry(name: string, tensor: Tensor, size: nat)

  /** What the loop reads: the names in the float model's index, those with the given prefix if one
      is given; the tensors by name (a name listed in the index may be missing from its file); and
      the conversion of a tensor with its scale. */
  datatype Source = Source(names: seq<string>, files: map<string, Tensor>, dequant: (Tensor, Tensor) -> Tensor)

  const SCALE := "weight_scale_inv"

  predicate Contains(s: string, sub: string) {
    exists i | 0 <= i <= |s| :: sub <= s[i..]
  }

  /** `get_prefix`: the name without its last component. */
  function ModuleName(name: string): string {
    var comps := Split(name, '.');
    Join(Front(comps), '.')
  }

  predicate Selected(name: string) {
    !Contains(name, SCALE)
  }

  /** The tensor that is written: dequantised if its module has a scale that can be loaded. */
  function Written(src: Source, name: string): Tensor
    requires name in src.files
  {
    var scale := ModuleName(name) + "." + SCALE;
    if scale in src.names && scale in src.files then src.dequant(src.files[name], src.files[scale])
    else src.files[name]
  }

  function EntryOf(src: Source, name: string): Entry
    requires name in src.files
  {
    Entry(name, Written(src, name), src.files[name].size)
  }

  /** The entries to be written, in the order of the names; a selected tensor that is missing raises. */
  function Entries(src: Source, names: seq<string>): Outcome<seq<Entry>>
    decreases |names|
  {
    if names == [] then Ok([])
    else
      var before :- Entries(src, Front(names));
      if !Selected(Last(names)) then Ok(before)
      else if Last(names) !in src.files then Raise(KeyError)
      else Ok(before + [EntryOf(src, Last(names))])
  }

  function Total(es: seq<Entry>): nat {
    if es == [] then 0 else Total(Front(es)) + Last(es).size
  }

  function Concat(shards: seq<seq<Entry>>): seq<Entry> {
    if shards == [] then [] else Concat(Front(shards)) + Last(shards)
  }

  // ----- what a finished sharding is -----

  /** A shard within the limit, or one tensor that is over it alone. */
  predicate ShardFits(shard: seq<Entry>, limit: real) {
    shard != [] && (|shard| == 1 || Total(shard) as real <= limit)
  }

  /** The first tensor of a shard did not fit behind the shard before it. */
  predicate Forced(before: seq<Entry>, after: seq<Entry>, limit: real) {
    after != [] && (Total(before) + after[0].size) as real > limit
  }

  ghost predicate NextFit(shards: seq<seq<Entry>>, limit: real) {
    && (forall i | 0 <= i < |shards| :: ShardFits(shards[i], limit))
    && (forall i | 0 <= i < |shards| - 1 :: Forced(shards[i], shards[i + 1], limit))
  }

  function FileName(prefix: string, number: nat): string {
    prefix + "-" + Decimal(number) + ".safetensors"
  }

  /** The index after the shards have been recorded one after another. */
  function Recorded(weightMap: map<string, string>, prefix: string, shards: seq<seq<Entry>>): map<string, string> {
    if shards == [] then weightMap
    else RecordShard(Recorded(weightMap, prefix, Front(shards)), FileName(prefix, |shards|), Last(shards))
  }

  function RecordShard(weightMap: map<string, string>, file: string, shard: seq<Entry>): map<string, string> {
    if shard == [] then weightMap
    else RecordShard(weightMap, file, Front(shard))[Last(shard).name := file]
  }

  /** The files and the two tables after `shards` have been written. */
  ghost predicate Wrote(prefix: string, shards: seq<seq<Entry>>, saved: seq<(string, seq<Entry>)>,
                        weightMap: map<string, string>, desc: map<string, string>,
                        weightMap0: map<string, string>, desc0: map<string, string>)
  {
    && saved == Files(prefix, shards)
    && weightMap == Recorded(weightMap0, prefix, shards)
    && desc == RecordedAs(desc0, "FLOAT", shards)
  }

  // ----- what is to be copied -----

  /** The name of a scale: it has these letters somewhere in it. */
  ghost predicate IsScale(name: string) {
    exists a, b :: name == a + "weight_scale_inv" + b
  }

  /** The part of a name in front of its last dot; nothing when it has no dot. */
  ghost predicate ModuleOf(name: string, m: string) {
    (m == "" && Lacks(name, '.')) || exists last :: Lacks(last, '.') && name == m + "." + last
  }

  /** What is written for a name: its tensor, converted with the scale of its module if that is listed and
      stored, and counted with the size it is stored in. */
  ghost predicate CopyOf(src: Source, name: string, e: Entry) {
    && e.name == name && name in src.files && e.size == src.files[name].size
    && exists m ::
         && ModuleOf(name, m)
         && var scale := m + ".weight_scale_inv";
            e.tensor == if scale in src.names && scale in src.files then src.dequant(src.files[name], src.files[scale])
                        else src.files[name]
  }

  /** The places of the names that are no scales, in order. */
  ghost predicate Picked(names: seq<string>, picks: seq<nat>) {
    && (forall k | 0 <= k < |picks| :: picks[k] < |names|)
    && (forall j, k | 0 <= j < k < |picks| :: picks[j] < picks[k])
    && (forall i: nat | i < |names| :: i in picks <==> !IsScale(names[i]))
  }

  /** The copies of all names that are no scales, in the order of the names. */
  ghost predicate Copies(src: Source, names: seq<string>, picks: seq<nat>, es: seq<Entry>) {
    && Picked(names, picks) && |es| == |picks|
    && forall k | 0 <= k < |es| :: CopyOf(src, names[picks[k]], es[k])
  }

  ghost predicate SomethingMissing(src: Source) {
    exists i :: 0 <= i < |src.names| && !IsScale(src.names[i]) && src.names[i] !in src.files
  }

  lemma SelectedIffNoScale(name: string)
    ensures Selected(name) <==> !IsScale(name)
  {
    if i :| 0 <= i <= |name| && SCALE <= name[i..] {
      assert name == name[..i] + "weight_scale_inv" + name[i + 16..];
    }
    if a, b :| name == a + "weight_scale_inv" + b {
      assert name[|a|..] == "weight_scale_inv" + b;
      assert SCALE <= name[|a|..];
    }
  }

  lemma ModuleNameIs(name: string)
    ensures ModuleOf(name, ModuleName(name))
  {
    hide Split, Join;
    var comps := Split(name, '.');
    JoinSplit(name, '.');
    if |comps| == 1 {
      assert comps == [comps[0]] && Front(comps) == [];
      JoinFew(comps[0], '.');
    } else {
      assert comps == Front(comps) + [Last(comps)];
      JoinConcat(Front(comps), [Last(comps)], '.');
      JoinFew(Last(comps), '.');
    }
  }

  lemma EntryIsCopy(src: Source, name: string)
    requires name in src.files
    ensures CopyOf(src, name, EntryOf(src, name))
  {
    hide ModuleOf, ModuleName;
    ModuleNameIs(name);
    var m := ModuleName(name);
    assert m + "." + SCALE == m + ".weight_scale_inv";
  }

  lemma JoinFew(s: string, c: char)
    ensures Join([s], c) == s && Join([], c) == ""
  {
  }

  lemma {:induction false} EntriesAreCopies(src: Source, names: seq<string>) returns (picks: seq<nat>)
    ensures Entries(src, names).Ok? ==> Copies(src, names, picks, Entries(src, names).value)
    ensures Entries(src, names).Raise? <==>
            exists i :: 0 <= i < |names| && !IsScale(names[i]) && names[i] !in src.files
    decreases |names|
  {
    hide Selected, IsScale, CopyOf, EntryOf;
    picks := [];
    if names != [] {
      var name, n := Last(names), |names| - 1;
      picks := EntriesAreCopies(src, Front(names));
      SelectedIffNoScale(name);
      if name in src.files {
        EntryIsCopy(src, name);
      }
      assert forall i | 0 <= i < n :: Front(names)[i] == names[i];
      assert names[n] == name;
      var before := Entries(src, Front(names));
      if before.Ok? {
        PickedStep(names, picks);
        if Selected(name) {
          picks := picks + [n];
        }
      }
    }
  }

  lemma PickedStep(names: seq<string>, picks: seq<nat>)
    requires names != [] && Picked(Front(names), picks)
    ensures IsScale(Last(names)) ==> Picked(names, picks)
    ensures !IsScale(Last(names)) ==> Picked(names, picks + [|names| - 1])
  {
    hide IsScale;
    var n := |names| - 1;
    assert forall i: nat | i < n :: Front(names)[i] == names[i];
    assert forall i :: i in picks + [n] <==> i in picks || i == n;
  }

  lemma CopiesOf(src: Source)
    ensures Entries(src, src.names).Raise? <==> SomethingMissing(src)
    ensures Entries(src, src.names).Ok? ==> exists picks :: Copies(src, src.names, picks, Entries(src, src.names).value)
  {
    hide *;
    var picks := EntriesAreCopies(src, src.names);
    MissingIs(src);
  }

  lemma MissingIs(src: Source)
    ensures SomethingMissing(src) <==>
            exists i :: 0 <= i < |src.names| && !IsScale(src.names[i]) && src.names[i] !in src.files
  {
    hide IsScale;
  }

  // ----- the loop -----

  class ShardWriter {
    const prefix: string
    const limit: real
    var newData: seq<Entry>
    var currentFileSize: nat
    var fileCount: nat
    var totalSize: int
    var weightMap: map<string, string>
    var desc: map<string, string>
    var saved: seq<(string, seq<Entry>)>  // the files written so far

    constructor (prefix: string, limit: real, weightMap: map<string, string>, desc: map<string, string>, totalSize: int)
      ensures this.prefix == prefix && this.limit == limit && this.weightMap == weightMap && this.desc == desc
      ensures this.totalSize == totalSize && newData == [] && currentFileSize == 0 && fileCount == 0 && saved == []
    {
      this.prefix, this.limit, this.weightMap, this.desc, this.totalSize := prefix, limit, weightMap, desc, totalSize;
      newData, currentFileSize, fileCount, saved := [], 0, 0, [];
    }

    /** Saving the current shard under the next file name and recording its tensors. */
    method SaveShard()
      modifies this
      ensures saved == old(saved) + [(FileName(prefix, old(fileCount) + 1), old(newData))]
      ensures weightMap == RecordShard(old(weightMap), FileName(prefix, old(fileCount) + 1), old(newData))
      ensures desc == RecordShard(old(desc), "FLOAT", old(newData))
      ensures newData == old(newData) && fileCount == old(fileCount) && totalSize == old(totalSize)
      ensures currentFileSize == old(currentFileSize)
    {
      var fileName := prefix + "-" + Decimal(fileCount + 1) + ".safetensors";
      saved := saved + [(fileName, newData)];
      for i := 0 to |newData|
        invariant newData == old(newData)
        invariant weightMap == RecordShard(old(weightMap), fileName, newData[..i])
        invariant desc == RecordShard(old(desc), "FLOAT", newData[..i])
        invariant fileCount == old(fileCount) && totalSize == old(totalSize)
        invariant saved == old(saved) + [(fileName, newData)] && currentFileSize == old(currentFileSize)
      {
        assert Front(newData[..i + 1]) == newData[..i];
        weightMap := weightMap[newData[i].name := fileName];
        desc := desc[newData[i].name := "FLOAT"];
      }
      assert newData[..|newData|] == newData;
    }

    /** Between two tensors: the closed shards and the open one hold exactly `es`. */
    ghost predicate Collecting(shards: seq<seq<Entry>>, es: seq<Entry>, weightMap0: map<string, string>,
                               desc0: map<string, string>)
      reads this
    {
      && Concat(shards) + newData == es
      && currentFileSize == Total(newData) && fileCount == |shards|
      && NextFit(shards, limit) && Wrote(prefix, shards, saved, weightMap, desc, weightMap0, desc0)
      && (newData != [] ==> ShardFits(newData, limit))
      && (shards != [] ==> Forced(Last(shards), newData, limit))
    }

    /** Closing the open shard. */
    method CloseCurrent(ghost shards: seq<seq<Entry>>, ghost es: seq<Entry>, ghost weightMap0: map<string, string>,
                        ghost desc0: map<string, string>)
      requires Collecting(shards, es, weightMap0, desc0) && newData != []
      modifies this
      ensures newData == old(newData) && totalSize == old(totalSize) && fileCount == old(fileCount)
      ensures Wrote(prefix, shards + [newData], saved, weightMap, desc, weightMap0, desc0) &&
              NextFit(shards + [newData], limit)
      ensures Concat(shards + [newData]) == es
    {
      hide Recorded, RecordedAs, Files, RecordShard, NextFit, ShardFits, Forced, Concat, Total, FileName;
      SaveShard();
      CloseShard(prefix, shards, newData, weightMap0, desc0, limit);
    }

    /** One tensor: if it does not fit behind what is open, the open shard is saved first. */
    method AddEntry(e: Entry, ghost shards: seq<seq<Entry>>, ghost es: seq<Entry>, ghost weightMap0: map<string,
                    string>,
                    ghost desc0: map<string, string>)
      returns (ghost next: seq<seq<Entry>>)
      requires Collecting(shards, es, weightMap0, desc0)
      modifies this
      ensures Collecting(next, es + [e], weightMap0, desc0) && totalSize == old(totalSize)
    {
      hide NextFit, Wrote, Concat, Total;
      next := shards;
      if (currentFileSize + e.size) as real > limit && newData != [] {
        CloseCurrent(shards, es, weightMap0, desc0);
        next := shards + [newData];
        newData := [];
        currentFileSize := 0;
        fileCount := fileCount + 1;
        TotalNone();
      }
      TotalPush(newData, e);
      ConcatPush(next, newData, e);
      TotalOfOne(e);
      newData := newData + [e];
      currentFileSize := currentFileSize + e.size;
    }

    /** The whole run over the selected names. */
    method AddTensors(src: Source) returns (r: Outcome<()>, ghost shards: seq<seq<Entry>>)
      requires newData == [] && currentFileSize == 0 && fileCount == 0 && saved == []
      modifies this
      ensures if Entries(src, src.names).Raise? then r == Raise(KeyError) else r == Ok(())
      ensures NextFit(shards, limit) && Wrote(prefix, shards, saved, weightMap, desc, old(weightMap), old(desc))
      ensures r.Raise? <==> SomethingMissing(src)
      ensures r.Ok? ==> exists picks :: Copies(src, src.names, picks, Concat(shards))
      ensures |saved| == |shards| && forall k | 0 <= k < |shards| ::
                saved[k] == (prefix + "-" + Decimal(k + 1) + ".safetensors", shards[k])
      ensures forall name ::
                if exists k :: 0 <= k < |shards| && NamesIn(shards[k], name) then name in desc && desc[name] == "FLOAT"
                else (name in desc <==> name in old(desc)) && (name in desc ==> desc[name] == old(desc)[name])
      ensures r.Ok? ==>
                && Concat(shards) == Entries(src, src.names).value
                && totalSize == old(totalSize) + Total(Entries(src, src.names).value)
    {
      hide Written, Wrote, Selected, NextFit, ShardFits, Forced, Concat, Total;
      shards := [];
      StartCollecting(old(weightMap), old(desc));
      for i := 0 to |src.names|
        invariant Entries(src, src.names[..i]).Ok?
        invariant Collecting(shards, Entries(src, src.names[..i]).value, old(weightMap), old(desc))
        invariant totalSize == old(totalSize) + Total(Entries(src, src.names[..i]).value)
      {
        var tensorName := src.names[i];
        assert Front(src.names[..i + 1]) == src.names[..i];
        MissingStays(src, src.names, i + 1);
        if Selected(tensorName) {
          if tensorName !in src.files {
            CopiesOf(src);
            WroteMeans(prefix, shards, saved, weightMap, desc, old(weightMap), old(desc));
            return Raise(KeyError), shards;
          }
          var tensor := src.files[tensorName];
          var tensorSize := tensor.size;
          totalSize := totalSize + tensorSize;
          tensor := Written(src, tensorName);
          ghost var es := Entries(src, src.names[..i]).value;
          TotalPush(es, Entry(tensorName, tensor, tensorSize));
          shards := AddEntry(Entry(tensorName, tensor, tensorSize), shards, es, old(weightMap), old(desc));
        }
      }
      assert src.names[..|src.names|] == src.names;
      if newData != [] {
        CloseCurrent(shards, Entries(src, src.names).value, old(weightMap), old(desc));
        shards := shards + [newData];
      } else {
        assert Concat(shards) + [] == Concat(shards);
      }
      CopiesOf(src);
      WroteMeans(prefix, shards, saved, weightMap, desc, old(weightMap), old(desc));
      return Ok(()), shards;
    }

    lemma StartCollecting(weightMap0: map<string, string>, desc0: map<string, string>)
      requires newData == [] && currentFileSize == 0 && fileCount == 0 && saved == []
      requires weightMap == weightMap0 && desc == desc0
      ensures Collecting([], [], weightMap0, desc0) && Total([]) == 0
    {
    }
  }

  lemma TotalNone()
    ensures Total([]) == 0
  {
  }

  lemma TotalOfOne(e: Entry)
    ensures Total([e]) == e.size && [] + [e] == [e]
  {
    TotalPush([], e);
    assert [] + [e] == [e];
  }

  /** The files written for `shards`, numbered from 1. */
  function Files(prefix: string, shards: seq<seq<Entry>>): (r: seq<(string, seq<Entry>)>)
    ensures |r| == |shards| && forall k | 0 <= k < |r| :: r[k] == (FileName(prefix, k + 1), shards[k])
  {
    if shards == [] then [] else Files(prefix, Front(shards)) + [(FileName(prefix, |shards|), Last(shards))]
  }

  function RecordedAs(desc: map<string, string>, kind: string, shards: seq<seq<Entry>>): map<string, string> {
    if shards == [] then desc else RecordShard(RecordedAs(desc, kind, Front(shards)), kind, Last(shards))
  }

  lemma TotalPush(es: seq<Entry>, e: Entry)
    ensures Total(es + [e]) == Total(es) + e.size
  {
    assert Front(es + [e]) == es;
  }

  lemma ConcatPush(shards: seq<seq<Entry>>, open: seq<Entry>, e: Entry)
    ensures Concat(shards) + (open + [e]) == Concat(shards) + open + [e]
    ensures Concat(shards + [open]) == Concat(shards) + open
  {
    assert Front(shards + [open]) == shards;
  }

  lemma CloseShard(prefix: string, shards: seq<seq<Entry>>, open: seq<Entry>, weightMap: map<string, string>,
                   desc: map<string, string>, limit: real)
    requires NextFit(shards, limit) && ShardFits(open, limit) && (shards != [] ==> Forced(Last(shards), open, limit))
    ensures NextFit(shards + [open], limit) && Concat(shards + [open]) == Concat(shards) + open
    ensures Files(prefix, shards + [open]) == Files(prefix, shards) + [(FileName(prefix, |shards| + 1), open)]
    ensures Recorded(weightMap, prefix, shards + [open]) ==
            RecordShard(Recorded(weightMap, prefix, shards), FileName(prefix, |shards| + 1), open)
    ensures RecordedAs(desc, "FLOAT", shards + [open]) == RecordShard(RecordedAs(desc, "FLOAT", shards), "FLOAT", open)
  {
    hide RecordShard, FileName;
    assert Front(shards + [open]) == shards && Last(shards + [open]) == open;
  }

  /** A missing tensor among the first names is a missing tensor. */
  lemma {:induction false} MissingStays(src: Source, names: seq<string>, i: nat)
    requires i <= |names|
    ensures Entries(src, names[..i]).Raise? ==> Entries(src, names) == Raise(KeyError)
    decreases |names|
  {
    hide Selected, EntryOf;
    if i == |names| {
      assert names[..i] == names;
      OnlyKeyError(src, names);
    } else {
      assert Front(names)[..i] == names[..i];
      MissingStays(src, Front(names), i);
    }
  }

  lemma {:induction false} OnlyKeyError(src: Source, names: seq<string>)
    ensures Entries(src, names).Ok? || Entries(src, names) == Raise(KeyError)
    decreases |names|
  {
    hide Selected, EntryOf;
    if names != [] {
      OnlyKeyError(src, Front(names));
    }
  }

  // ----- how many shards -----

  lemma {:induction false} ConcatTotal(shards: seq<seq<Entry>>)
    requires shards != []
    ensures Total(Concat(shards)) == Total(Concat(Front(shards))) + Total(Last(shards))
  {
    TotalConcat(Concat(Front(shards)), Last(shards));
  }

  lemma {:induction false} TotalConcat(a: seq<Entry>, b: seq<Entry>)
    ensures Total(a + b) == Total(a) + Total(b)
    decreases |b|
  {
    if b == [] {
      assert a + b == a;
    } else {
      assert Front(a + b) == a + Front(b);
      TotalConcat(a, Front(b));
    }
  }

  lemma {:induction false} TotalAtLeastFirst(es: seq<Entry>)
    requires es != []
    ensures Total(es) >= es[0].size
  {
    if |es| > 1 {
      TotalAtLeastFirst(Front(es));
    }
  }

  /** Two neighbouring shards together exceed the limit. */
  lemma NeighboursExceed(shards: seq<seq<Entry>>, limit: real, i: nat)
    requires NextFit(shards, limit) && i + 1 < |shards|
    ensures (Total(shards[i]) + Total(shards[i + 1])) as real > limit
  {
    assert Forced(shards[i], shards[i + 1], limit);
    TotalAtLeastFirst(shards[i + 1]);
  }

  lemma NextFitFront(shards: seq<seq<Entry>>, limit: real)
    requires NextFit(shards, limit) && shards != []
    ensures NextFit(Front(shards), limit)
  {
  }

  /** With two or more shards, half their number times the limit is less than what they hold. */
  lemma {:induction false} HalfTheShardsAreFull(shards: seq<seq<Entry>>, limit: real)
    requires NextFit(shards, limit) && |shards| >= 2
    ensures (|shards| / 2) as real * limit < Total(Concat(shards)) as real
    decreases |shards|
  {
    hide NextFit, Total, Concat;
    var fewer := Front(shards);
    var fewest := Front(fewer);
    var n := |shards|;
    NeighboursExceed(shards, limit, n - 2);
    NextFitFront(shards, limit);
    NextFitFront(fewer, limit);
    ConcatTotal(shards);
    ConcatTotal(fewer);
    if n == 2 {
      OnceLimit(n / 2, limit);
    } else if n == 3 {
      HalfTheShardsAreFull(fewer, limit);
    } else {
      HalfTheShardsAreFull(fewest, limit);
      assert n / 2 == (n - 2) / 2 + 1;
      HalfStep((n - 2) / 2, limit);
    }
  }

  lemma OnceLimit(k: nat, limit: real)
    requires k == 1
    ensures k as real * limit == limit
  {
  }

  lemma HalfStep(k: nat, limit: real)
    ensures (k + 1) as real * limit == k as real * limit + limit
  {
  }

  /** Any way at all of putting the same tensors into files within the limit. */
  predicate WithinLimit(shards: seq<seq<Entry>>, limit: real) {
    forall i | 0 <= i < |shards| :: Total(shards[i]) as real <= limit
  }

  lemma {:induction false} WithinLimitTotal(shards: seq<seq<Entry>>, limit: real)
    requires WithinLimit(shards, limit)
    ensures Total(Concat(shards)) as real <= |shards| as real * limit
  {
    hide Total;
    if shards == [] {
      TotalNone();
    } else {
      WithinLimitTotal(Front(shards), limit);
      ConcatTotal(shards);
      HalfStep(|shards| - 1, limit);
    }
  }

  lemma CutAt(b: seq<Entry>, i: nat)
    requires i < |b|
    ensures b == b[..i] + [b[i]] + b[i + 1..]
  {
  }

  lemma RemoveOne(b: seq<Entry>, i: nat)
    requires i < |b|
    ensures Total(b) == Total(b[..i] + b[i + 1..]) + b[i].size
  {
    hide Total;
    CutAt(b, i);
    TotalPush(b[..i], b[i]);
    TotalConcat(b[..i] + [b[i]], b[i + 1..]);
    TotalConcat(b[..i], b[i + 1..]);
  }

  lemma BagWithout(b: seq<Entry>, i: nat)
    requires i < |b|
    ensures multiset(b[..i] + b[i + 1..]) == multiset(b) - multiset{b[i]}
  {
    CutAt(b, i);
    assert multiset(b) == multiset(b[..i] + [b[i]] + b[i + 1..]);
  }

  lemma {:induction false} TotalOfBag(a: seq<Entry>, b: seq<Entry>)
    requires multiset(a) == multiset(b)
    ensures Total(a) == Total(b)
    decreases |a|
  {
    if a == [] {
      assert |multiset(b)| == |b|;
      assert b == [];
    } else {
      hide Total;
      var e := a[0];
      assert e in multiset(b);
      var i :| 0 <= i < |b| && b[i] == e;
      RemoveOne(a, 0);
      RemoveOne(b, i);
      BagWithout(a, 0);
      BagWithout(b, i);
      TotalOfBag(a[..0] + a[1..], b[..i] + b[i + 1..]);
    }
  }

  /** Fewer than twice as many files as any other placement of the same tensors needs. */
  lemma LessThanTwiceOptimal(shards: seq<seq<Entry>>, other: seq<seq<Entry>>, limit: real)
    requires NextFit(shards, limit) && shards != []
    requires WithinLimit(other, limit) && multiset(Concat(other)) == multiset(Concat(shards))
    ensures |shards| <= 2 * |other| - 1
  {
    hide NextFit, Total, Concat, WithinLimit;
    SomethingToPlace(shards, other, limit);
    if |shards| > 1 {
      HalfTheShardsAreFull(shards, limit);
      WithinLimitTotal(other, limit);
      TotalOfBag(Concat(other), Concat(shards));
      FewerByLimit(|shards| / 2, |other|, limit, Total(Concat(shards)));
    }
  }

  lemma SomethingToPlace(shards: seq<seq<Entry>>, other: seq<seq<Entry>>, limit: real)
    requires NextFit(shards, limit) && shards != [] && multiset(Concat(other)) == multiset(Concat(shards))
    ensures other != []
  {
    assert ShardFits(shards[|shards| - 1], limit);
    assert Last(shards)[0] in Concat(shards);
    assert Last(shards)[0] in multiset(Concat(other));
  }

  lemma FewerByLimit(half: nat, others: nat, limit: real, total: nat)
    requires others >= 1 && half as real * limit < total as real <= others as real * limit
    ensures half < others
  {
    if limit >= 0.0 {
      if others <= half {
        RealMulLe(others as real, half as real, limit);
      }
    } else {
      RealMulNeg(others as real, limit);
    }
  }

  lemma RealMulLe(a: real, b: real, c: real)
    requires a <= b && c >= 0.0
    ensures a * c <= b * c
  {
  }

  lemma RealMulNeg(a: real, c: real)
    requires a >= 1.0 && c < 0.0
    ensures a * c < 0.0
  {
  }

  // ----- the index -----

  lemma FileNamesDistinct(prefix: string, m: nat, n: nat)
    requires FileName(prefix, m) == FileName(prefix, n)
    ensures m == n
  {
    hide Decimal;
    var a, b := Decimal(m), Decimal(n);
    var head, tail := prefix + "-", ".safetensors";
    assert FileName(prefix, m) == head + a + tail && FileName(prefix, n) == head + b + tail;
    assert |a| == |b|;
    assert a == (head + a + tail)[|head|..|head| + |a|];
    assert b == (head + b + tail)[|head|..|head| + |b|];
    DecimalInjective(m, n);
  }

  /** The files are numbered from 1, and the description has every tensor as a float one and all else as it
      was. */
  lemma WroteMeans(prefix: string, shards: seq<seq<Entry>>, saved: seq<(string, seq<Entry>)>,
                   weightMap: map<string, string>, desc: map<string, string>,
                   weightMap0: map<string, string>, desc0: map<string, string>)
    requires Wrote(prefix, shards, saved, weightMap, desc, weightMap0, desc0)
    ensures |saved| == |shards| && forall k | 0 <= k < |shards| ::
              saved[k] == (prefix + "-" + Decimal(k + 1) + ".safetensors", shards[k])
    ensures forall name ::
              if exists k :: 0 <= k < |shards| && NamesIn(shards[k], name) then name in desc && desc[name] == "FLOAT"
              else (name in desc <==> name in desc0) && (name in desc ==> desc[name] == desc0[name])
  {
    hide NamesIn, RecordedAs;
    forall name
      ensures if exists k :: 0 <= k < |shards| && NamesIn(shards[k], name) then name in desc && desc[name] == "FLOAT"
              else (name in desc <==> name in desc0) && (name in desc ==> desc[name] == desc0[name])
    {
      RecordedAsMaps(desc0, shards, name);
    }
  }

  lemma {:induction false} RecordedAsMaps(desc: map<string, string>, shards: seq<seq<Entry>>, name: string)
    ensures var after := RecordedAs(desc, "FLOAT", shards);
            if exists k :: 0 <= k < |shards| && NamesIn(shards[k], name) then name in after && after[name] == "FLOAT"
            else (name in after <==> name in desc) && (name in desc ==> after[name] == desc[name])
    decreases |shards|
  {
    hide NamesIn, RecordShard;
    if shards != [] {
      var n := |shards| - 1;
      RecordedAsMaps(desc, Front(shards), name);
      RecordShardMaps(RecordedAs(desc, "FLOAT", Front(shards)), "FLOAT", Last(shards), name);
      assert forall k | 0 <= k < n :: Front(shards)[k] == shards[k];
      assert shards[n] == Last(shards);
    }
  }

  predicate NamesIn(es: seq<Entry>, name: string) {
    exists i :: 0 <= i < |es| && es[i].name == name
  }

  lemma {:induction false} RecordShardMaps(weightMap: map<string, string>, file: string, shard: seq<Entry>,
                                           name: string)
    ensures var after := RecordShard(weightMap, file, shard);
            if NamesIn(shard, name) then name in after && after[name] == file
            else (name in after <==> name in weightMap) && (name in weightMap ==> after[name] == weightMap[name])
    decreases |shard|
  {
    if shard != [] {
      RecordShardMaps(weightMap, file, Front(shard), name);
      if NamesIn(shard, name) && Last(shard).name != name {
        var i :| 0 <= i < |shard| && shard[i].name == name;
        assert Front(shard)[i].name == name;
      }
      if NamesIn(Front(shard), name) {
        var i :| 0 <= i < |Front(shard)| && Front(shard)[i].name == name;
        assert shard[i].name == name;
      }
      assert Last(shard) == shard[|shard| - 1];
    }
  }

  ghost predicate DistinctNames(shards: seq<seq<Entry>>) {
    forall j, k, name | 0 <= j < k < |shards| && NamesIn(shards[j], name) :: !NamesIn(shards[k], name)
  }

  /** After the run the index sends every tensor to the file of the shard that holds it, and leaves
      every other name as it was. */
  lemma {:induction false} IndexIsRight(weightMap: map<string, string>, prefix: string, shards: seq<seq<Entry>>,
                                        name: string)
    requires DistinctNames(shards)
    ensures var after := Recorded(weightMap, prefix, shards);
            && (forall k | 0 <= k < |shards| && NamesIn(shards[k], name) ::
                  name in after && after[name] == FileName(prefix, k + 1))
            && ((forall k | 0 <= k < |shards| :: !NamesIn(shards[k], name)) ==>
                  (name in after <==> name in weightMap) && (name in weightMap ==> after[name] == weightMap[name]))
    decreases |shards|
  {
    hide NamesIn, FileName, RecordShard;
    if shards != [] {
      IndexIsRight(weightMap, prefix, Front(shards), name);
      RecordShardMaps(Recorded(weightMap, prefix, Front(shards)), FileName(prefix, |shards|), Last(shards), name);
    }
  }

  /** Names that are listed once end up in one shard. */
  predicate Listed(es: seq<Entry>) {
    forall i, j | 0 <= i < j < |es| :: es[i].name != es[j].name
  }

  lemma {:induction false} ShardsOfListed(shards: seq<seq<Entry>>)
    requires Listed(Concat(shards))
    ensures DistinctNames(shards)
    decreases |shards|
  {
    if shards != [] {
      var fewer, last := Front(shards), Last(shards);
      var all := Concat(fewer) + last;
      assert forall i | 0 <= i < |Concat(fewer)| :: all[i] == Concat(fewer)[i];
      ShardsOfListed(fewer);
      forall j, name | 0 <= j < |fewer| && NamesIn(fewer[j], name)
        ensures !NamesIn(last, name)
      {
        InConcat(fewer, j, name);
        var i :| 0 <= i < |Concat(fewer)| && Concat(fewer)[i].name == name;
        forall k | 0 <= k < |last|
          ensures last[k].name != name
        {
          assert all[|Concat(fewer)| + k] == last[k] && all[i].name == name;
        }
      }
      assert forall j | 0 <= j < |fewer| :: fewer[j] == shards[j];
    }
  }

  lemma {:induction false} InConcat(shards: seq<seq<Entry>>, j: nat, name: string)
    requires j < |shards| && NamesIn(shards[j], name)
    ensures NamesIn(Concat(shards), name)
    decreases |shards|
  {
    var fewer, last := Front(shards), Last(shards);
    if j < |fewer| {
      InConcat(fewer, j, name);
      var i :| 0 <= i < |Concat(fewer)| && Concat(fewer)[i].name == name;
      assert Concat(shards)[i].name == name;
    } else {
      var i :| 0 <= i < |last| && last[i].name == name;
      assert Concat(shards)[|Concat(fewer)| + i].name == name;
    }
  }

  lemma {:induction false} EntriesListed(src: Source, names: seq<string>)
    requires Entries(src, names).Ok? && forall i, j | 0 <= i < j < |names| :: names[i] != names[j]
    ensures Listed(Entries(src, names).value)
    ensures forall i | 0 <= i < |Entries(src, names).value| :: Entries(src, names).value[i].name in names
    decreases |names|
  {
    hide Selected, Written;
    if names != [] {
      EntriesListed(src, Front(names));
    }
  }
}
