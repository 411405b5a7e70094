/** `Comparator.compare`: what is reported for any number of dumps, and when nothing is. */
module Compare {
  import opened PyValues
  import opened Json
  import opened Positions
  import opened Comparator
  import opened Canonical

  /** For each file, its sections. */
  type Dumps = map<string, map<string, Json>>

  const MISSING: Json := Leaf(StrV("missing"))

  /** What a file contributes to a section's table at a path. */
  function ValueIn(dumps: Dumps, file: string, section: string, p: Path): Option<Json> {
    if file in dumps && section in dumps[file] then At(dumps[file][section], p) else None
  }

  /** The test of `_all_values_equal`, for the value it happens to take as its reference. */
  predicate AgreesWith(values: map<string, Json>, files: set<string>, ref: Json) {
    forall file | file in files :: file in values && values[file] == ref
  }

  predicate AllValuesEqual(values: map<string, Json>, files: set<string>) {
    exists ref | ref in values.Values :: AgreesWith(values, files, ref)
  }

  /** Which value is taken as the reference makes no difference. */
  lemma AnyReferenceDecides(values: map<string, Json>, files: set<string>, ref: Json)
    requires ref in values.Values && values.Keys <= files
    ensures AgreesWith(values, files, ref) <==> AllValuesEqual(values, files)
    ensures AllValuesEqual(values, files) <==>
              (forall file | file in files :: file in values) &&
              (forall f, g | f in files && g in files :: f in values && g in values && values[f] == values[g])
  {
    var k :| k in values && values[k] == ref;
    if AllValuesEqual(values, files) {
      var other :| other in values.Values && AgreesWith(values, files, other);
      assert values[k] == other;
    }
    if forall f, g | f in files && g in files :: f in values && g in values && values[f] == values[g] {
      forall file | file in files
        ensures file in values && values[file] == ref
      {
        assert k in files;
      }
    }
  }

  /** The reported row of a path: every file's value, or the missing marker. */
  function Row(values: map<string, Json>, files: set<string>): map<string, Json> {
    map file | file in files :: if file in values then values[file] else MISSING
  }

  function Differences(flat: FlatTable, files: set<string>): map<Path, map<string, Json>> {
    map p | p in flat && !AllValuesEqual(flat[p], files) :: Row(flat[p], files)
  }

  /** The tables of `compare`, one per section, after flattening the (file, section) pairs in `done`. */
  ghost predicate TableOf(dumps: Dumps, done: set<(string, string)>, section: string, flat: FlatTable) {
    && NoEmptyRow(flat)
    && forall p: Path, file, v :: HasEntry(flat, p, file, v) <==>
                                  (file, section) in done && ValueIn(dumps, file, section, p) == Some(v)
  }

  lemma TableOfFlatten(dumps: Dumps, done: set<(string, string)>, file: string, section: string,
                       old': FlatTable, new': FlatTable)
    requires TableOf(dumps, done, section, old') && (file, section) !in done
    requires file in dumps && section in dumps[file]
    requires OthersKept(old', new', file) && NoEmptyRow(new')
    requires forall p: Path, v :: HasEntry(new', p, file, v) <==> At(dumps[file][section], p) == Some(v)
    ensures TableOf(dumps, done + {(file, section)}, section, new')
  {
    hide At;
    forall p: Path, g, v
      ensures HasEntry(new', p, g, v) <==>
              (g, section) in done + {(file, section)} && ValueIn(dumps, g, section, p) == Some(v)
    {
      if g != file {
        assert HasEntry(new', p, g, v) <==> HasEntry(old', p, g, v);
      }
    }
  }

  lemma FileNotYetThere(dumps: Dumps, done: set<(string, string)>, file: string, section: string, flat: FlatTable)
    requires TableOf(dumps, done, section, flat) && (file, section) !in done
    ensures forall p | p in flat :: file !in flat[p]
  {
    forall p | p in flat
      ensures file !in flat[p]
    {
      if file in flat[p] {
        assert HasEntry(flat, p, file, flat[p][file]);
      }
    }
  }

  ghost predicate IsPair(dumps: Dumps, file: string, section: string) {
    file in dumps && section in dumps[file]
  }

  /** What is reported: for each section some file has, the rows of the paths where files disagree. */
  ghost predicate Reported(dumps: Dumps, diff: map<string, map<Path, map<string, Json>>>) {
    && (forall c :: c in diff <==> exists file :: IsPair(dumps, file, c))
    && (forall c, p: Path | c in diff ::
          p in diff[c] <==>
          exists f, g :: f in dumps && g in dumps && ValueIn(dumps, f, c, p) != ValueIn(dumps, g, c, p))
    && (forall c, p: Path | c in diff && p in diff[c] ::
          && diff[c][p].Keys == dumps.Keys
          && forall file | file in dumps ::
               diff[c][p][file] == match ValueIn(dumps, file, c, p) case Some(v) => v case None => MISSING)
  }

  /** A finished section table reports exactly the paths on which two files differ. */
  lemma DifferencesAreDisagreements(dumps: Dumps, done: set<(string, string)>, c: string, flat: FlatTable, p: Path)
    requires TableOf(dumps, done, c, flat)
    requires forall file | IsPair(dumps, file, c) :: (file, c) in done
    requires forall pair | pair in done :: IsPair(dumps, pair.0, pair.1)
    ensures p in Differences(flat, dumps.Keys) <==>
            exists f, g :: f in dumps && g in dumps && ValueIn(dumps, f, c, p) != ValueIn(dumps, g, c, p)
    ensures p in Differences(flat, dumps.Keys) ==>
              forall file | file in dumps ::
                Row(flat[p], dumps.Keys)[file] ==
                  match ValueIn(dumps, file, c, p) case Some(v) => v case None => MISSING
  {
    hide At, AllValuesEqual;
    var files := dumps.Keys;
    forall file | file in files
      ensures ValueIn(dumps, file, c, p) == if p in flat && file in flat[p] then Some(flat[p][file]) else None
    {
      var w := ValueIn(dumps, file, c, p);
      assert w.Some? ==> HasEntry(flat, p, file, w.value);
      if p in flat && file in flat[p] {
        assert HasEntry(flat, p, file, flat[p][file]);
      }
    }
    if p in flat {
      var values := flat[p];
      var k :| k in values;
      assert HasEntry(flat, p, k, values[k]);
      forall g | g in values
        ensures g in files
      {
        assert HasEntry(flat, p, g, values[g]);
      }
      AnyReferenceDecides(values, files, values[k]);
      assert k in files;
      if p in Differences(flat, files) {
        if f: string :| f in files && f !in values {
          assert ValueIn(dumps, f, c, p) != ValueIn(dumps, k, c, p);
        }
      }
    }
  }

  /** Everything known between two sections: the tables hold exactly the pairs flattened so far. */
  ghost predicate Collected(dumps: Dumps, done: set<(string, string)>, tables: map<string, FlatTable>) {
    && (forall pair | pair in done :: IsPair(dumps, pair.0, pair.1) && pair.1 in tables)
    && (forall c | c in tables :: TableOf(dumps, done, c, tables[c]) && exists file :: IsPair(dumps, file, c))
  }

  /** One file's section is flattened into the table of that section, which is made if need be. */
  method AddSection(dumps: Dumps, file: string, c: string, tables: map<string, FlatTable>, ghost done: set<(string,
                    string)>)
    returns (next: map<string, FlatTable>)
    requires IsPair(dumps, file, c) && (file, c) !in done && Collected(dumps, done, tables)
    ensures Collected(dumps, done + {(file, c)}, next)
  {
    hide TableOf, HasEntry, OthersKept, NoEmptyRow, At;
    var table := new Table();
    if c in tables {
      table.flat := tables[c];
    } else {
      NewTable(dumps, done, c);
    }
    ghost var before := table.flat;
    FileNotYetThere(dumps, done, file, c, before);
    TableHasNoEmptyRow(dumps, done, c, before);
    table.Flatten(dumps[file][c], file);
    TableOfFlatten(dumps, done, file, c, before, table.flat);
    forall d | d in tables && d != c
      ensures TableOf(dumps, done + {(file, c)}, d, tables[d])
    {
      OtherSection(dumps, done, file, c, d, tables[d]);
    }
    next := tables[c := table.flat];
  }

  method Compare(dumps: Dumps) returns (diff: map<string, map<Path, map<string, Json>>>)
    ensures Reported(dumps, diff)
    ensures forall c, p: Path, file | c in diff && p in diff[c] && file in dumps && ValueIn(dumps, file, c, p).None? ::
              file in diff[c][p] && diff[c][p][file] == Leaf(StrV("missing"))
  {
    hide Collected, Differences, Reported, ValueIn;
    var tables: map<string, FlatTable> := map[];
    ghost var done: set<(string, string)> := {};
    var files := dumps.Keys;
    NothingCollected(dumps);
    while files != {}
      invariant files <= dumps.Keys
      invariant Collected(dumps, done, tables)
      invariant forall pair | pair in done :: pair.0 !in files
      invariant forall file, c | IsPair(dumps, file, c) && file !in files :: (file, c) in done
      decreases |files|
    {
      var file :| file in files;
      files := files - {file};
      var sections := dumps[file].Keys;
      while sections != {}
        invariant sections <= dumps[file].Keys
        invariant Collected(dumps, done, tables)
        invariant forall pair | pair in done :: pair.0 !in files && (pair.0 == file ==> pair.1 !in sections)
        invariant forall f, c | IsPair(dumps, f, c) && f !in files && !(f == file && c in sections) :: (f, c) in done
        decreases |sections|
      {
        var c :| c in sections;
        sections := sections - {c};
        tables := AddSection(dumps, file, c, tables, done);
        done := done + {(file, c)};
      }
    }
    diff := map c | c in tables :: Differences(tables[c], dumps.Keys);
    AllReported(dumps, done, tables, diff);
    MissingIsMarked(dumps, diff);
  }

  lemma MissingIsMarked(dumps: Dumps, diff: map<string, map<Path, map<string, Json>>>)
    requires Reported(dumps, diff)
    ensures forall c, p: Path, file | c in diff && p in diff[c] && file in dumps && ValueIn(dumps, file, c, p).None? ::
              file in diff[c][p] && diff[c][p][file] == Leaf(StrV("missing"))
  {
    hide ValueIn;
  }

  lemma NothingCollected(dumps: Dumps)
    ensures Collected(dumps, {}, map[])
  {
  }

  lemma AllReported(dumps: Dumps, done: set<(string, string)>, tables: map<string, FlatTable>,
                    diff: map<string, map<Path, map<string, Json>>>)
    requires Collected(dumps, done, tables)
    requires forall file, c | IsPair(dumps, file, c) :: (file, c) in done
    requires diff == map c | c in tables :: Differences(tables[c], dumps.Keys)
    ensures Reported(dumps, diff)
  {
    hide TableOf, Differences, ValueIn, Row;
    assert forall c :: c in diff <==> exists file :: IsPair(dumps, file, c) by {
      forall c, file | IsPair(dumps, file, c)
        ensures c in tables
      {
        assert (file, c) in done;
      }
    }
    forall c, p: Path | c in diff
      ensures p in diff[c] <==>
              exists f, g :: f in dumps && g in dumps && ValueIn(dumps, f, c, p) != ValueIn(dumps, g, c, p)
      ensures p in diff[c] ==>
                && diff[c][p].Keys == dumps.Keys
                && forall file | file in dumps ::
                     diff[c][p][file] == match ValueIn(dumps, file, c, p) case Some(v) => v case None => MISSING
    {
      DifferencesAreDisagreements(dumps, done, c, tables[c], p);
      DifferencesRow(tables[c], dumps.Keys, p);
    }
  }

  lemma NewTable(dumps: Dumps, done: set<(string, string)>, c: string)
    requires forall pair | pair in done :: pair.1 != c
    ensures TableOf(dumps, done, c, map[])
  {
  }

  lemma TableHasNoEmptyRow(dumps: Dumps, done: set<(string, string)>, c: string, flat: FlatTable)
    requires TableOf(dumps, done, c, flat)
    ensures NoEmptyRow(flat)
  {
  }

  lemma OtherSection(dumps: Dumps, done: set<(string, string)>, file: string, c: string, d: string, flat: FlatTable)
    requires TableOf(dumps, done, d, flat) && c != d
    ensures TableOf(dumps, done + {(file, c)}, d, flat)
  {
    hide ValueIn, HasEntry;
  }

  lemma DifferencesRow(flat: FlatTable, files: set<string>, p: Path)
    ensures p in Differences(flat, files) ==> p in flat && Differences(flat, files)[p] == Row(flat[p], files)
    ensures p in flat ==> Row(flat[p], files).Keys == files
  {
  }

  // ----- when nothing is reported -----

  /** What the comparison can see of a file's section; a missing section looks like an empty one. */
  function Visible(dumps: Dumps, file: string, section: string): Json
    requires file in dumps
  {
    if section in dumps[file] then Canon(dumps[file][section]) else NOTHING
  }

  /** Soundness and completeness, for any dumps: nothing is reported in any section if and only if
      in every section all files have the same canonical tree. */
  lemma NothingReportedIff(dumps: Dumps, diff: map<string, map<Path, map<string, Json>>>)
    requires Reported(dumps, diff)
    ensures (forall c | c in diff :: diff[c] == map[]) <==>
            (forall f, g, c | f in dumps && g in dumps :: Visible(dumps, f, c) == Visible(dumps, g, c))
  {
    hide Canon;
    forall f, g, c | f in dumps && g in dumps
      ensures Visible(dumps, f, c) == Visible(dumps, g, c) <==>
              forall p: Path :: ValueIn(dumps, f, c, p) == ValueIn(dumps, g, c, p)
    {
      VisibleDecides(dumps, f, g, c);
    }
    if forall f, g, c | f in dumps && g in dumps :: Visible(dumps, f, c) == Visible(dumps, g, c) {
      forall c | c in diff
        ensures diff[c] == map[]
      {
        forall p: Path
          ensures p !in diff[c]
        {
          forall f, g | f in dumps && g in dumps
            ensures ValueIn(dumps, f, c, p) == ValueIn(dumps, g, c, p)
          {
            assert Visible(dumps, f, c) == Visible(dumps, g, c);
          }
        }
      }
    }
    if forall c | c in diff :: diff[c] == map[] {
      forall f, g, c | f in dumps && g in dumps
        ensures Visible(dumps, f, c) == Visible(dumps, g, c)
      {
        if c in diff {
          forall p: Path
            ensures ValueIn(dumps, f, c, p) == ValueIn(dumps, g, c, p)
          {
            assert p !in diff[c];
          }
        } else {
          assert !IsPair(dumps, f, c) && !IsPair(dumps, g, c);
        }
      }
    }
  }

  lemma VisibleDecides(dumps: Dumps, f: string, g: string, c: string)
    requires f in dumps && g in dumps
    ensures Visible(dumps, f, c) == Visible(dumps, g, c) <==>
            forall p: Path :: ValueIn(dumps, f, c, p) == ValueIn(dumps, g, c, p)
  {
    var t := if c in dumps[f] then dumps[f][c] else NOTHING;
    var u := if c in dumps[g] then dumps[g][c] else NOTHING;
    EmptyIsNothing();
    CanonDecides(t, u);
    assert forall p: Path :: ValueIn(dumps, f, c, p) == At(t, p) && ValueIn(dumps, g, c, p) == At(u, p);
  }

  /** For dumps without empty containers: nothing is reported if and only if all files have the same
      sections with equal trees, that is, are equal. */
  lemma NothingReportedIffEqual(dumps: Dumps, diff: map<string, map<Path, map<string, Json>>>)
    requires Reported(dumps, diff)
    requires forall f, c | f in dumps && c in dumps[f] :: NoEmptyContainers(dumps[f][c])
    ensures (forall c | c in diff :: diff[c] == map[]) <==>
            (forall f, g | f in dumps && g in dumps :: dumps[f] == dumps[g])
  {
    hide Canon, NoEmptyContainers, Reported;
    NothingReportedIff(dumps, diff);
    forall f, c | f in dumps && c in dumps[f]
      ensures Visible(dumps, f, c) == dumps[f][c] && dumps[f][c] != NOTHING
    {
      CanonOfFull(dumps[f][c]);
    }
    if forall f, g, c | f in dumps && g in dumps :: Visible(dumps, f, c) == Visible(dumps, g, c) {
      forall f, g | f in dumps && g in dumps
        ensures dumps[f] == dumps[g]
      {
        forall c
          ensures c in dumps[f] <==> c in dumps[g]
          ensures c in dumps[f] ==> dumps[f][c] == dumps[g][c]
        {
          assert Visible(dumps, f, c) == Visible(dumps, g, c);
        }
      }
    }
  }

  /** The condition cannot be dropped: an empty dict is not told from a missing one. */
  lemma EmptyContainerIsInvisible(x: Json, diff: map<string, map<Path, map<string, Json>>>)
    requires NoEmptyContainers(x)
    requires Reported(map["a" := map["s" := Dict(map["k" := x])],
                          "b" := map["s" := Dict(map["k" := x, "e" := NOTHING])]], diff)
    ensures forall c | c in diff :: diff[c] == map[]
  {
    var dumps := map["a" := map["s" := Dict(map["k" := x])], "b" := map["s" := Dict(map["k" := x, "e" := NOTHING])]];
    CanonOfFull(x);
    EmptyIsNothing();
    assert Canon(Dict(map["k" := x])).m == Canon(Dict(map["k" := x, "e" := NOTHING])).m;
    forall f, g, c | f in dumps && g in dumps
      ensures Visible(dumps, f, c) == Visible(dumps, g, c)
    {
    }
    NothingReportedIff(dumps, diff);
  }
}
