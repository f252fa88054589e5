/** Private session files, written with everything they require (`session.py`). */
module SessionFiles {
  import opened Wrappers

  type Path = string

  /** A file's contents, or `None` for a directory, and the files its contents refer to. */
  datatype Planned = Planned(render: Option<string>, needs: seq<Path>)

  type Plans = map<Path, Planned>

  // Requirements

  /** A chain of requirements that starts with `source`. */
  ghost predicate Chain(plans: Plans, chain: seq<Path>) {
    && chain != []
    && (|chain| > 1 ==> chain[0] in plans && chain[1] in plans[chain[0]].needs && Chain(plans, chain[1..]))
  }

  /** `file` is `source` or one of its transitive requirements. */
  ghost predicate Requires(plans: Plans, source: Path, file: Path) {
    exists chain: seq<Path> :: Chain(plans, chain) && chain[0] == source && chain[|chain| - 1] == file
  }

  lemma RequiresItself(plans: Plans, file: Path)
    ensures Requires(plans, file, file)
  {
    assert Chain(plans, [file]);
  }

  lemma RequiresThrough(plans: Plans, source: Path, need: Path, file: Path)
    requires source in plans && need in plans[source].needs && Requires(plans, need, file)
    ensures Requires(plans, source, file)
  {
    var chain :| Chain(plans, chain) && chain[0] == need && chain[|chain| - 1] == file;
    var longer := [source] + chain;
    assert longer[1..] == chain;
    assert Chain(plans, longer);
  }

  lemma RequiresByNeed(plans: Plans, source: Path, file: Path) returns (need: Path)
    requires Requires(plans, source, file) && file != source
    ensures source in plans && need in plans[source].needs && Requires(plans, need, file)
  {
    var chain :| Chain(plans, chain) && chain[0] == source && chain[|chain| - 1] == file;
    need := chain[1];
    assert Chain(plans, chain[1..]);
  }

  // Plans

  function IndexOf(order: seq<Path>, file: Path): (index: nat)
    requires file in order
    ensures index < |order| && order[index] == file
  {
    if order[0] == file then 0 else 1 + IndexOf(order[1..], file)
  }

  lemma {:induction false} IndexOfLonger(order: seq<Path>, file: Path, last: Path)
    requires file in order
    ensures IndexOf(order + [last], file) == IndexOf(order, file)
  {
    if order[0] != file {
      IndexOfLonger(order[1..], file, last);
      assert (order + [last])[1..] == order[1..] + [last];
    }
  }

  /** Every file was planned after everything it requires. */
  ghost predicate Ordered(plans: Plans, order: seq<Path>) {
    && (forall file :: file in plans <==> file in order)
    && forall file, need :: file in plans && need in plans[file].needs ==>
                              need in plans && IndexOf(order, need) < IndexOf(order, file)
  }

  /** Files are created after everything they require, and once. */
  ghost predicate Sound(plans: Plans, log: seq<Path>) {
    && (forall i :: 0 <= i < |log| ==> log[i] in plans && log[i] !in log[..i])
    && (forall i, need :: 0 <= i < |log| && need in plans[log[i]].needs ==> need in log[..i])
  }

  lemma {:induction false} RequiredComesEarlier(plans: Plans, order: seq<Path>, source: Path, file: Path)
    requires Ordered(plans, order) && source in plans && Requires(plans, source, file)
    ensures file in plans && IndexOf(order, file) <= IndexOf(order, source)
    decreases IndexOf(order, source)
  {
    if file != source {
      var need := RequiresByNeed(plans, source, file);
      RequiredComesEarlier(plans, order, need, file);
    }
  }

  /** No file requires itself. */
  lemma PlanIsAcyclic(plans: Plans, order: seq<Path>, file: Path, need: Path)
    requires Ordered(plans, order) && file in plans && need in plans[file].needs
    ensures !Requires(plans, need, file)
  {
    if Requires(plans, need, file) {
      RequiredComesEarlier(plans, order, need, file);
    }
  }

  lemma {:induction false} WrittenIsClosed(plans: Plans, log: seq<Path>, k: nat, file: Path)
    requires Sound(plans, log) && k < |log| && Requires(plans, log[k], file)
    ensures file in log
    decreases k
  {
    if file != log[k] {
      var need := RequiresByNeed(plans, log[k], file);
      var j :| 0 <= j < k && log[j] == need;
      WrittenIsClosed(plans, log, j, file);
    }
  }

  lemma SoundLonger(plans: Plans, log: seq<Path>, file: Path)
    requires Sound(plans, log) && file in plans && file !in log
    requires forall need :: need in plans[file].needs ==> need in log
    ensures Sound(plans, log + [file])
  {
    var longer := log + [file];
    forall i | 0 <= i < |longer| ensures longer[..i] == log[..i] {
    }
    assert longer[|log|] == file && log[..|log|] == log;
  }

  /** Required by one of the first `n` selected files. */
  ghost predicate Selected(plans: Plans, paths: seq<Path>, n: nat, file: Path)
    requires n <= |paths|
  {
    exists i :: 0 <= i < n && Requires(plans, paths[i], file)
  }

  ghost predicate WroteSelected(plans: Plans, before: seq<Path>, after: seq<Path>, paths: seq<Path>, n: nat)
    requires n <= |paths|
  {
    && before <= after
    && forall file :: file in after <==> file in before || Selected(plans, paths, n, file)
  }

  class SessionFiles {
    const directory: Path
    var planned: Plans
    var order: seq<Path>
    var dependencies: set<Path>
    var written: set<Path>
    var files: map<Path, Option<string>>
    ghost var log: seq<Path>

    /** What is written is on disk with its planned contents. */
    ghost predicate Valid()
      reads this
    {
      && Ordered(planned, order) && Sound(planned, log)
      && (forall file :: file in written <==> file in log) && files.Keys == written
      && forall file :: file in files ==> files[file] == planned[file].render
    }

    constructor (directory: Path)
      ensures Valid() && this.directory == directory && planned == map[] && log == [] && dependencies == {}
    {
      this.directory := directory;
      planned, order, dependencies, written, files, log := map[], [], {}, {}, map[], [];
    }

    method Plan(name: string, render: Option<string>, needs: seq<Option<Path>>, dependency: bool) returns (path: Path)
      modifies this`planned, this`order, this`dependencies
      ensures path == directory + "/" + name
      ensures path in planned && planned == old(planned)[path := Planned(render, planned[path].needs)]
      ensures forall file :: file in planned[path].needs <==> Some(file) in needs
      ensures KeptInOrder(needs, planned[path].needs)
      ensures order == if path in old(planned) then old(order) else old(order) + [path]
      ensures dependencies == if dependency then old(dependencies) + {path} else old(dependencies)
      ensures old(Valid()) && path !in old(planned) && (forall file :: Some(file) in needs ==> file in old(planned)) ==>
                Valid()
    {
      hide KeptInOrder, Present, Ordered;
      PresentInOrder(needs);
      PresentExactly(needs);
      path := directory + "/" + name;
      if path !in planned {
        order := order + [path];
      }
      planned := planned[path := Planned(render, Present(needs))];
      if dependency {
        dependencies := dependencies + {path};
      }
      if old(Valid()) && path !in old(planned) && forall file :: Some(file) in needs ==> file in old(planned) {
        PlanKeepsOrder(old(planned), old(order), path, planned[path]);
        PlanKeepsLog(old(planned), log, path, planned[path]);
      }
    }

    /** `write_all`: every file that was not planned as a mere dependency, and what these need. */
    method WriteAll() returns (done: bool)
      requires Valid()
      modifies this`written, this`files, this`log
      ensures Valid() && old(log) <= log
      ensures forall file :: file in written ==> file in old(written) || RequiredBy(planned, planned.Keys - dependencies, file)
      ensures done ==> forall file :: file in old(written) || RequiredBy(planned, planned.Keys - dependencies, file) ==>
                                        file in written
      ensures done ==> forall file :: file in planned && file !in dependencies ==>
                                        file in written && forall need :: need in planned[file].needs ==> need in written
    {
      var kept := dependencies;
      var paths := Kept(order, (file: Path) => file !in kept);
      done := Write(paths, |order|);
      SelectedAreRequired(planned, paths, planned.Keys - dependencies);
      forall file | file in planned && file !in dependencies
        ensures RequiredBy(planned, planned.Keys - dependencies, file)
        ensures forall need :: need in planned[file].needs ==> RequiredBy(planned, planned.Keys - dependencies, need)
      {
        RequiredWithNeeds(planned, planned.Keys - dependencies, file);
      }
    }

    /** `write_referenced`: each planned file whose path is one of the values, and what these need. */
    method WriteReferenced(values: seq<string>) returns (done: bool)
      requires Valid()
      modifies this`written, this`files, this`log
      ensures Valid() && old(log) <= log
      ensures forall file :: file in written ==> file in old(written) || RequiredBy(planned, Named(planned, values), file)
      ensures done ==> forall file :: file in old(written) || RequiredBy(planned, Named(planned, values), file) ==>
                                        file in written
      ensures done ==> forall file :: file in planned && file in values ==>
                                        file in written && forall need :: need in planned[file].needs ==> need in written
    {
      var paths := Kept(order, (file: Path) => file in values);
      done := Write(paths, |order|);
      SelectedAreRequired(planned, paths, Named(planned, values));
      forall file | file in planned && file in values
        ensures RequiredBy(planned, Named(planned, values), file)
        ensures forall need :: need in planned[file].needs ==> RequiredBy(planned, Named(planned, values), need)
      {
        RequiredWithNeeds(planned, Named(planned, values), file);
      }
    }

    /** `_write`. A file that cannot be rendered or created ends the session. */
    method Write(paths: seq<Path>, ghost limit: nat) returns (done: bool)
      requires Valid()
      requires forall path :: path in paths ==> path in planned && IndexOf(order, path) < limit
      modifies this`written, this`files, this`log
      ensures Valid() && old(log) <= log
      ensures forall file :: file in log ==> file in old(log) || Selected(planned, paths, |paths|, file)
      ensures done ==> WroteSelected(planned, old(log), log, paths, |paths|)
      decreases limit, |paths|
    {
      hide Requires, Chain, Ordered, Sound, Selected, WroteSelected;
      NothingSelected(planned, log, paths);
      var n := 0;
      while n < |paths|
        invariant n <= |paths| && Valid()
        invariant WroteSelected(planned, old(log), log, paths, n)
        modifies this`written, this`files, this`log
      {
        var path := paths[n];
        ghost var middle := log;
        if path !in written {
          var plan := planned[path];
          NeedsComeEarlier(planned, order, path);
          done := Write(plan.needs, IndexOf(order, path));
          assert middle <= log;
          var failed: bool := *;
          if !done || failed {
            OnlySelected(planned, old(log), middle, log, paths, n);
            return false;
          }
          NextWritten(planned, order, old(log), middle, log, paths, n);
          files := files[path := plan.render];
          written := written + {path};
          log := log + [path];
        } else {
          AlreadyWritten(planned, old(log), log, paths, n);
        }
        n := n + 1;
      }
      done := true;
      OnlySelectedAtEnd(planned, old(log), log, paths);
    }
  }

  /** Some file of `tops` is `file` or requires it. */
  ghost predicate RequiredBy(plans: Plans, tops: set<Path>, file: Path) {
    exists top :: top in tops && Requires(plans, top, file)
  }

  /** A required file other than the selected one is needed directly by a required file. */
  lemma {:induction false} LastRequirer(plans: Plans, chain: seq<Path>) returns (requirer: Path)
    requires Chain(plans, chain) && |chain| > 1
    ensures Requires(plans, chain[0], requirer)
    ensures requirer in plans && chain[|chain| - 1] in plans[requirer].needs
  {
    if |chain| == 2 {
      requirer := chain[0];
      RequiresItself(plans, chain[0]);
    } else {
      requirer := LastRequirer(plans, chain[1..]);
      RequiresThrough(plans, chain[0], chain[1], requirer);
    }
  }

  /** Whatever `write_all` writes of the mere dependencies, something else it writes needs directly. */
  lemma DependencyHasRequirer(plans: Plans, dependencies: set<Path>, file: Path) returns (requirer: Path)
    requires file in dependencies && RequiredBy(plans, plans.Keys - dependencies, file)
    ensures requirer in plans && file in plans[requirer].needs
    ensures RequiredBy(plans, plans.Keys - dependencies, requirer)
  {
    var top :| top in plans.Keys - dependencies && Requires(plans, top, file);
    var chain :| Chain(plans, chain) && chain[0] == top && chain[|chain| - 1] == file;
    requirer := LastRequirer(plans, chain);
  }

  /** A selected file is written with everything it was planned with. */
  lemma RequiredWithNeeds(plans: Plans, tops: set<Path>, file: Path)
    requires file in tops && file in plans
    ensures RequiredBy(plans, tops, file)
    ensures forall need :: need in plans[file].needs ==> RequiredBy(plans, tops, need)
  {
    hide Requires;
    RequiresItself(plans, file);
    forall need | need in plans[file].needs ensures RequiredBy(plans, tops, need) {
      RequiresItself(plans, need);
      RequiresThrough(plans, file, need, need);
    }
  }

  function Named(plans: Plans, values: seq<string>): set<Path> {
    set path | path in plans && path in values
  }

  lemma SelectedAreRequired(plans: Plans, paths: seq<Path>, tops: set<Path>)
    requires forall path :: path in paths <==> path in tops
    ensures forall file :: Selected(plans, paths, |paths|, file) <==> RequiredBy(plans, tops, file)
  {
    hide Requires;
    forall file | RequiredBy(plans, tops, file) ensures Selected(plans, paths, |paths|, file) {
      var top :| top in tops && Requires(plans, top, file);
      var i :| 0 <= i < |paths| && paths[i] == top;
    }
  }

  lemma NothingSelected(plans: Plans, log: seq<Path>, paths: seq<Path>)
    ensures WroteSelected(plans, log, log, paths, 0)
  {
  }

  lemma NeedsComeEarlier(plans: Plans, order: seq<Path>, path: Path)
    requires Ordered(plans, order) && path in plans
    ensures path in order
    ensures forall need :: need in plans[path].needs ==>
                             need in plans && need in order && IndexOf(order, need) < IndexOf(order, path)
  {
  }

  lemma SelectedOneMore(plans: Plans, paths: seq<Path>, n: nat, file: Path)
    requires n < |paths|
    ensures Selected(plans, paths, n + 1, file) <==> Selected(plans, paths, n, file) || Requires(plans, paths[n], file)
  {
    hide Requires;
    if Requires(plans, paths[n], file) {
      assert Selected(plans, paths, n + 1, file);
    }
  }

  lemma SelectedByFile(plans: Plans, path: Path, file: Path)
    requires path in plans
    ensures Requires(plans, path, file) <==>
            file == path || Selected(plans, plans[path].needs, |plans[path].needs|, file)
  {
    hide Chain;
    var needs := plans[path].needs;
    if Selected(plans, needs, |needs|, file) {
      var i :| 0 <= i < |needs| && Requires(plans, needs[i], file);
      RequiresThrough(plans, path, needs[i], file);
    }
    RequiresItself(plans, path);
    if Requires(plans, path, file) && file != path {
      var need := RequiresByNeed(plans, path, file);
      var i :| 0 <= i < |needs| && needs[i] == need;
    }
  }

  /** After the requirements of the next file, only selected files are written. */
  lemma OnlySelected(plans: Plans, before: seq<Path>, middle: seq<Path>, after: seq<Path>, paths: seq<Path>, n: nat)
    requires n < |paths| && paths[n] in plans && WroteSelected(plans, before, middle, paths, n) && middle <= after
    requires var needs := plans[paths[n]].needs;
             forall file :: file in after ==> file in middle || Selected(plans, needs, |needs|, file)
    ensures before <= after
    ensures forall file :: file in after ==> file in before || Selected(plans, paths, |paths|, file)
  {
    hide Requires;
    forall file | file in after ensures file in before || Selected(plans, paths, |paths|, file) {
      SelectedByFile(plans, paths[n], file);
    }
  }

  lemma OnlySelectedAtEnd(plans: Plans, before: seq<Path>, after: seq<Path>, paths: seq<Path>)
    requires WroteSelected(plans, before, after, paths, |paths|)
    ensures before <= after
    ensures forall file :: file in after ==> file in before || Selected(plans, paths, |paths|, file)
  {
  }

  lemma NextWritten(plans: Plans, order: seq<Path>, before: seq<Path>, middle: seq<Path>, after: seq<Path>,
                    paths: seq<Path>, n: nat)
    requires Ordered(plans, order) && n < |paths| && paths[n] in plans && paths[n] !in middle
    requires WroteSelected(plans, before, middle, paths, n) && Sound(plans, after)
    requires WroteSelected(plans, middle, after, plans[paths[n]].needs, |plans[paths[n]].needs|)
    ensures Sound(plans, after + [paths[n]])
    ensures WroteSelected(plans, before, after + [paths[n]], paths, n + 1)
  {
    hide Requires, Ordered, Sound;
    var path := paths[n];
    var needs := plans[path].needs;
    if Selected(plans, needs, |needs|, path) {
      var i :| 0 <= i < |needs| && Requires(plans, needs[i], path);
      PlanIsAcyclic(plans, order, path, needs[i]);
    }
    forall need | need in needs ensures need in after {
      RequiresItself(plans, need);
      var i :| 0 <= i < |needs| && needs[i] == need;
    }
    SoundLonger(plans, after, path);
    forall file ensures file in after + [path] <==> file in before || Selected(plans, paths, n + 1, file) {
      SelectedByFile(plans, path, file);
      SelectedOneMore(plans, paths, n, file);
    }
  }

  lemma AlreadyWritten(plans: Plans, before: seq<Path>, log: seq<Path>, paths: seq<Path>, n: nat)
    requires n < |paths| && paths[n] in log && Sound(plans, log) && WroteSelected(plans, before, log, paths, n)
    ensures WroteSelected(plans, before, log, paths, n + 1)
  {
    hide Requires, Sound;
    var k :| 0 <= k < |log| && log[k] == paths[n];
    forall file ensures file in log <==> file in before || Selected(plans, paths, n + 1, file) {
      SelectedOneMore(plans, paths, n, file);
      if Requires(plans, paths[n], file) {
        WrittenIsClosed(plans, log, k, file);
      }
    }
  }

  /** A file planned under a new name after everything it requires. */
  lemma PlanKeepsOrder(plans: Plans, order: seq<Path>, path: Path, plan: Planned)
    requires Ordered(plans, order) && path !in plans
    requires forall need :: need in plan.needs ==> need in plans
    ensures Ordered(plans[path := plan], order + [path])
  {
    var after, longer := plans[path := plan], order + [path];
    forall file | file in order ensures IndexOf(longer, file) == IndexOf(order, file) {
      IndexOfLonger(order, file, path);
    }
    assert longer[|order|] == path;
    assert IndexOf(longer, path) == |order|;
  }

  /** Files written earlier stay sound under a longer plan. */
  lemma PlanKeepsLog(plans: Plans, log: seq<Path>, path: Path, plan: Planned)
    requires Sound(plans, log) && path !in plans
    ensures Sound(plans[path := plan], log)
  {
  }

  function Present(needs: seq<Option<Path>>): seq<Path> {
    if needs == [] then []
    else (match needs[0] case None => [] case Some(path) => [path]) + Present(needs[1..])
  }

  /** The paths kept are the given ones, in the order they were given and as often. */
  ghost predicate KeptInOrder(needs: seq<Option<Path>>, kept: seq<Path>)
    decreases |needs|
  {
    if needs == [] then kept == []
    else if needs[0] == None then KeptInOrder(needs[1..], kept)
    else kept != [] && needs[0] == Some(kept[0]) && KeptInOrder(needs[1..], kept[1..])
  }

  lemma {:induction false} PresentInOrder(needs: seq<Option<Path>>)
    ensures KeptInOrder(needs, Present(needs))
  {
    if needs != [] {
      PresentInOrder(needs[1..]);
      if needs[0].Some? {
        assert Present(needs)[1..] == Present(needs[1..]);
      } else {
        assert Present(needs) == Present(needs[1..]);
      }
    }
  }

  lemma {:induction false} PresentExactly(needs: seq<Option<Path>>)
    ensures forall file :: file in Present(needs) <==> Some(file) in needs
  {
    if needs != [] {
      PresentExactly(needs[1..]);
      assert needs == [needs[0]] + needs[1..];
    }
  }

  function Kept(paths: seq<Path>, keep: Path -> bool): (kept: seq<Path>)
    ensures forall path :: path in kept <==> path in paths && keep(path)
  {
    if paths == [] then [] else (if keep(paths[0]) then [paths[0]] else []) + Kept(paths[1..], keep)
  }
}
