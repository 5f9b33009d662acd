/** The run context: which day a batch run is for. `get_latest_dated_folder`
    picks the latest folder whose name parses as a date; `get_run_date` prefers
    a well-formed override. Directory listings and the value of the environment
    variable are inputs; the date parser (`datetime.strptime` with
    "%Y-%m-%d") is a parameter. */
module RunContext {
  import opened Basics
  import opened Sequences

  /** A dated candidate: the date parsed from a folder name, and what it names. */
  datatype Candidate<T> = Candidate(date: Day, item: T)

  /** Python's `max(candidates, key=date)`: the first candidate with the latest date. */
  function LatestIndex<T>(cs: seq<Candidate<T>>): (k: nat)
    requires cs != []
    ensures k < |cs|
    ensures forall j :: 0 <= j < |cs| ==> cs[j].date <= cs[k].date
    ensures forall j :: 0 <= j < k ==> cs[j].date < cs[k].date
  {
    if |cs| == 1 then 0
    else
      var k := LatestIndex(cs[..|cs| - 1]);
      if cs[|cs| - 1].date > cs[k].date then |cs| - 1 else k
  }

  /** Among the elements `f` dates, the one `LatestIndex` picks sits at a
      position whose date no dated element exceeds, and every dated element
      before it is strictly earlier. */
  lemma LatestSelected<T, U>(s: seq<T>, f: T -> Option<Candidate<U>>)
    requires FilterMap(s, f) != []
    ensures var cs := FilterMap(s, f);
      var k := LatestIndex(cs);
      var i := Positions(s, f)[k];
      && i < |s| && f(s[i]) == Some(cs[k])
      && (forall j :: 0 <= j < |s| && f(s[j]).Some? ==> f(s[j]).value.date <= cs[k].date)
      && (forall j :: 0 <= j < i && f(s[j]).Some? ==> f(s[j]).value.date < cs[k].date)
  {
    forall j | 0 <= j < |s| && f(s[j]).Some?
      ensures f(s[j]).value.date <= FilterMap(s, f)[LatestIndex(FilterMap(s, f))].date
      ensures j < Positions(s, f)[LatestIndex(FilterMap(s, f))] ==>
                f(s[j]).value.date < FilterMap(s, f)[LatestIndex(FilterMap(s, f))].date
    {
      ComparedWithLatest(s, f, j);
    }
  }

  /** One dated element compared with the one `LatestIndex` picks. */
  lemma ComparedWithLatest<T, U>(s: seq<T>, f: T -> Option<Candidate<U>>, j: nat)
    requires FilterMap(s, f) != [] && j < |s| && f(s[j]).Some?
    ensures var cs := FilterMap(s, f);
      var k := LatestIndex(cs);
      && f(s[j]).value.date <= cs[k].date
      && (j < Positions(s, f)[k] ==> f(s[j]).value.date < cs[k].date)
  {
    var m := PositionOf(s, f, j);
    LatestAgainst(FilterMap(s, f), Positions(s, f), m);
  }

  /** A candidate compared with the one `LatestIndex` picks, where `p` numbers
      the candidates in increasing order. */
  lemma LatestAgainst<T>(cs: seq<Candidate<T>>, p: seq<nat>, m: nat)
    requires cs != [] && |p| == |cs| && m < |cs|
    requires forall a, b :: 0 <= a < b < |p| ==> p[a] < p[b]
    ensures cs[m].date <= cs[LatestIndex(cs)].date
    ensures p[m] < p[LatestIndex(cs)] ==> cs[m].date < cs[LatestIndex(cs)].date
  {
    var k := LatestIndex(cs);
    if k < m {
      assert p[k] < p[m];
    }
  }

  /** An entry of a directory listing. */
  datatype DirEntry = DirEntry(name: string, isDir: bool)

  /** A sub-directory whose name parses as a date. */
  function AsDatedFolder(parse: string -> Option<Day>, e: DirEntry): Option<Candidate<string>> {
    if e.isDir && parse(e.name).Some? then Some(Candidate(parse(e.name).value, e.name)) else None
  }

  /** What `get_latest_dated_folder` returns, as the name of the folder. */
  function LatestFolder(rootExists: bool, entries: seq<DirEntry>, parse: string -> Option<Day>): Result<string> {
    if !rootExists then Failure(NotFound)
    else
      var cs := FilterMap(entries, e => AsDatedFolder(parse, e));
      if cs == [] then Failure(NotFound) else Success(cs[LatestIndex(cs)].item)
  }

  /** `get_latest_dated_folder`: a missing root, or a root without a dated
      sub-directory, is NotFound; otherwise the first dated sub-directory with
      the latest date, in listing order. */
  lemma LatestFolderIsLatest(rootExists: bool, entries: seq<DirEntry>, parse: string -> Option<Day>)
    ensures var r := LatestFolder(rootExists, entries, parse);
      && (r.Failure? ==> r.error == NotFound)
      && (r.Failure? <==> !rootExists || forall i :: 0 <= i < |entries| ==> AsDatedFolder(parse, entries[i]).None?)
      && (r.Success? ==>
            exists i :: (
              && 0 <= i < |entries| && entries[i].isDir && entries[i].name == r.value
              && parse(entries[i].name).Some?
              && (forall j :: 0 <= j < |entries| && entries[j].isDir && parse(entries[j].name).Some? ==>
                    parse(entries[j].name).value <= parse(entries[i].name).value)
              && (forall j :: 0 <= j < i && entries[j].isDir && parse(entries[j].name).Some? ==>
                    parse(entries[j].name).value < parse(entries[i].name).value)))
  {
    var f := e => AsDatedFolder(parse, e);
    FilterMapEmpty(entries, f);
    if rootExists && FilterMap(entries, f) != [] {
      LatestSelected(entries, f);
      var i := Positions(entries, f)[LatestIndex(FilterMap(entries, f))];
      assert entries[i].isDir && parse(entries[i].name).Some?;
    }
  }

  /** `get_latest_dated_folder`, with its loop over the directory listing. */
  method LatestDatedFolder(rootExists: bool, entries: seq<DirEntry>, parse: string -> Option<Day>)
    returns (r: Result<string>)
    ensures r == LatestFolder(rootExists, entries, parse)
  {
    if !rootExists {
      return Failure(NotFound);
    }
    var candidates: seq<Candidate<string>> := [];
    for i := 0 to |entries|
      invariant candidates == FilterMap(entries[..i], e => AsDatedFolder(parse, e))
    {
      var child := entries[i];
      assert entries[..i + 1][..i] == entries[..i];
      if !child.isDir {
        continue;
      }
      var parsed := parse(child.name);
      if parsed.None? {
        continue;
      }
      candidates := candidates + [Candidate(parsed.value, child.name)];
    }
    assert entries[..|entries|] == entries;
    if candidates == [] {
      return Failure(NotFound);
    }
    return Success(candidates[LatestIndex(candidates)].item);
  }

  /** `get_run_date`: a non-empty override is returned as it is when it parses
      and is a ConfigError when it does not; an absent or empty override falls
      back to the latest dated input folder. */
  method ResolveRunDate(override: Option<string>, rootExists: bool, entries: seq<DirEntry>, parse: string -> Option<Day>)
    returns (r: Result<string>)
    ensures Present(override) && parse(override.value).Some? ==> r == Success(override.value)
    ensures Present(override) && parse(override.value).None? ==> r == Failure(ConfigError)
    ensures !Present(override) ==> r == LatestFolder(rootExists, entries, parse)
  {
    if Present(override) {
      if parse(override.value).None? {
        return Failure(ConfigError);
      }
      return Success(override.value);
    }
    r := LatestDatedFolder(rootExists, entries, parse);
  }

  // --------------------------------------------------------------- examples

  function ExampleFolderDate(name: string): Option<Day> {
    if name == "2024-01-01" then Some(0) else if name == "2024-03-01" then Some(60) else None
  }

  /** Of "2024-01-01", "2024-03-01" and "notes", the latest dated folder is "2024-03-01". */
  lemma ExampleLatestFolder()
    ensures LatestFolder(true, [DirEntry("2024-01-01", true), DirEntry("2024-03-01", true), DirEntry("notes", true)],
                         ExampleFolderDate) == Success("2024-03-01")
  {
    var e0 := DirEntry("2024-01-01", true);
    var e1 := DirEntry("2024-03-01", true);
    var e2 := DirEntry("notes", true);
    var f := e => AsDatedFolder(ExampleFolderDate, e);
    assert ExampleFolderDate("notes") == None;
    FilterMapTriple(e0, e1, e2, f);
    var cs := [Candidate(0, "2024-01-01"), Candidate(60, "2024-03-01")];
    assert FilterMap([e0, e1, e2], f) == cs;
    assert cs[..1] == [cs[0]];
    assert LatestIndex(cs) == 1;
  }
}
