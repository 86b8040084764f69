// The bookkeeping of `reinstall`: the configuration inverted into a
// dictionary from each raw workspace string to the package names linked
// into it, both in first-seen order and without repeats.
module WorkspaceMap {
  import opened Sequences
  import opened Shell
  import opened LinkConfig

  /** The JavaScript object workspaceModuleMap: its keys in insertion order,
      and the array held under each key. */
  datatype ModuleMap = ModuleMap(keys: seq<Path>, lists: map<Path, seq<string>>)

  ghost predicate Valid(m: ModuleMap) {
    NoDups(m.keys) && forall k :: k in m.lists <==> k in m.keys
  }

  /** One (workspace, package name) pair of the configuration. */
  type Entry = (Path, string)

  /** Record that `name` is to be reinstalled in `projectPath`. */
  function Insert(m: ModuleMap, projectPath: Path, name: string): ModuleMap {
    if projectPath !in m.lists then ModuleMap(m.keys + [projectPath], m.lists[projectPath := [name]])
    else if name in m.lists[projectPath] then m
    else ModuleMap(m.keys, m.lists[projectPath := m.lists[projectPath] + [name]])
  }

  /** After an insertion the key lists the name: a new key is appended to
      the keys with the one-name list, an existing list gains the name at its
      end unless it already holds it; every other key keeps its list. */
  lemma InsertRecords(m: ModuleMap, projectPath: Path, name: string)
    ensures var r := Insert(m, projectPath, name);
      var prior := if projectPath in m.lists then m.lists[projectPath] else [];
      && r.keys == m.keys + (if projectPath in m.lists then [] else [projectPath])
      && projectPath in r.lists && name in r.lists[projectPath]
      && r.lists[projectPath] == prior + (if name in prior then [] else [name])
      && (forall k :: k != projectPath ==> (k in r.lists <==> k in m.lists))
      && (forall k :: k != projectPath && k in m.lists ==> r.lists[k] == m.lists[k])
  {
  }

  /** The dictionary after inserting the entries in order. */
  function BuildMap(entries: seq<Entry>): ModuleMap {
    if entries == [] then ModuleMap([], map[])
    else
      var last := entries[|entries| - 1];
      Insert(BuildMap(entries[..|entries| - 1]), last.0, last.1)
  }

  function PackageEntries(p: Package): seq<Entry> {
    var ws := Workspaces(p);
    seq(|ws|, j requires 0 <= j < |ws| => (ws[j], p.name))
  }

  /** Some package named n lists ws among its workspaces. */
  ghost predicate ListedIn(c: Config, ws: Path, n: string) {
    exists i :: 0 <= i < |c| && c[i].name == n && ws in Workspaces(c[i])
  }

  /** Every (workspace, name) pair of the configuration, packages in order
      and each package's workspaces in list order. */
  function Entries(c: Config): seq<Entry> {
    if c == [] then [] else Entries(c[..|c| - 1]) + PackageEntries(c[|c| - 1])
  }

  /** The entries are exactly the pairs the configuration lists. */
  lemma {:induction false} EntriesListed(c: Config)
    ensures forall ws, n :: (ws, n) in Entries(c) <==> ListedIn(c, ws, n)
  {
    if c != [] {
      var p := c[..|c| - 1];
      EntriesListed(p);
      assert forall ws, n :: ListedIn(c, ws, n) <==> ListedIn(p, ws, n) || (ws in Workspaces(c[|c| - 1]) && n == c[|c| - 1].name) by {
        forall ws, n | ListedIn(c, ws, n) && !ListedIn(p, ws, n)
          ensures ws in Workspaces(c[|c| - 1]) && n == c[|c| - 1].name
        {
          var i :| 0 <= i < |c| && c[i].name == n && ws in Workspaces(c[i]);
        }
        forall ws, n | ListedIn(p, ws, n)
          ensures ListedIn(c, ws, n)
        {
          var i :| 0 <= i < |p| && p[i].name == n && ws in Workspaces(p[i]);
          assert c[i] == p[i];
        }
      }
      forall ws, n | ws in Workspaces(c[|c| - 1]) && n == c[|c| - 1].name
        ensures (ws, n) in PackageEntries(c[|c| - 1])
      {
        var ws' := Workspaces(c[|c| - 1]);
        var j :| 0 <= j < |ws'| && ws'[j] == ws;
        assert PackageEntries(c[|c| - 1])[j] == (ws, n);
      }
    }
  }

  lemma EntriesSnoc(c: Config, i: nat)
    requires i < |c|
    ensures Entries(c[..i + 1]) == Entries(c[..i]) + PackageEntries(c[i])
  {
    assert c[..i + 1][..i] == c[..i];
  }

  /** The raw workspace strings of the entries, in order. */
  function RawWorkspaces(e: seq<Entry>): (r: seq<Path>)
    ensures |r| == |e| && forall j :: 0 <= j < |e| ==> r[j] == e[j].0
  {
    seq(|e|, j requires 0 <= j < |e| => e[j].0)
  }

  /** The names entered for workspace ws, in order, repeats included. */
  function NamesAt(e: seq<Entry>, ws: Path): (r: seq<string>)
    ensures forall n :: n in r <==> (ws, n) in e
  {
    if e == [] then []
    else
      var p := e[..|e| - 1];
      assert e == p + [e[|e| - 1]];
      NamesAt(p, ws) + (if e[|e| - 1].0 == ws then [e[|e| - 1].1] else [])
  }

  /** workspaceModuleMap as `reinstall` builds it for configuration c. */
  function ConfigModuleMap(c: Config): (m: ModuleMap)
    ensures Valid(m)
  {
    BuildMapValid(Entries(c));
    BuildMap(Entries(c))
  }

  /** Keys are distinct and are exactly the workspaces that hold a list. */
  lemma {:induction false} BuildMapValid(e: seq<Entry>)
    ensures Valid(BuildMap(e))
  {
    if e != [] {
      var p, x := e[..|e| - 1], e[|e| - 1];
      assert e == p + [x];
      BuildMapValid(p);
      BuildMapSnoc(p, x);
    }
  }

  lemma BuildMapSnoc(e: seq<Entry>, x: Entry)
    ensures BuildMap(e + [x]) == Insert(BuildMap(e), x.0, x.1)
  {
    assert (e + [x])[..|e|] == e;
  }

  lemma NamesAtSnoc(e: seq<Entry>, x: Entry, ws: Path)
    ensures NamesAt(e + [x], ws) == NamesAt(e, ws) + (if x.0 == ws then [x.1] else [])
  {
    assert (e + [x])[..|e|] == e;
  }

  /** A workspace that is not among the raw strings has no names. */
  lemma NamesAtAbsent(e: seq<Entry>, ws: Path)
    requires ws !in RawWorkspaces(e)
    ensures NamesAt(e, ws) == []
  {
  }

  /** The list under ws after one more entry, given the lists before it. */
  lemma InsertListStep(e: seq<Entry>, x: Entry, ws: Path)
    requires BuildMap(e).keys == Dedup(RawWorkspaces(e))
    requires ws in BuildMap(e).lists ==> BuildMap(e).lists[ws] == Dedup(NamesAt(e, ws))
    requires ws in BuildMap(e + [x]).lists
    ensures BuildMap(e + [x]).lists[ws] == Dedup(NamesAt(e + [x], ws))
  {
    var m := BuildMap(e);
    BuildMapValid(e);
    BuildMapSnoc(e, x);
    NamesAtSnoc(e, x, ws);
    var names := NamesAt(e, ws);
    if ws != x.0 {
      assert NamesAt(e + [x], ws) == names;
    } else if ws !in m.lists {
      NamesAtAbsent(e, ws);
      assert NamesAt(e + [x], ws) == [] + [x.1];
      DedupSnoc([], x.1);
    } else {
      assert NamesAt(e + [x], ws) == names + [x.1];
      DedupSnoc(names, x.1);
      assert m.lists[ws] == Dedup(names);
    }
  }

  /** The keys are the distinct raw workspace strings in first-seen order, and
      each list holds the distinct names entered for its key, in entry order. */
  lemma {:induction false} BuildMapIsDedup(e: seq<Entry>)
    ensures BuildMap(e).keys == Dedup(RawWorkspaces(e))
    ensures forall ws :: ws in BuildMap(e).lists ==> BuildMap(e).lists[ws] == Dedup(NamesAt(e, ws))
  {
    if e != [] {
      var p, x := e[..|e| - 1], e[|e| - 1];
      assert e == p + [x];
      BuildMapIsDedup(p);
      BuildMapValid(p);
      BuildMapSnoc(p, x);
      assert RawWorkspaces(e) == RawWorkspaces(p) + [x.0];
      DedupSnoc(RawWorkspaces(p), x.0);
      forall ws | ws in BuildMap(e).lists
        ensures BuildMap(e).lists[ws] == Dedup(NamesAt(e, ws))
      {
        InsertListStep(p, x, ws);
      }
    }
  }

  /** Map coverage: a key lists a name exactly when some package of that name
      lists the key as a workspace; and the keys are exactly the workspaces. */
  lemma ModuleMapCoverage(c: Config)
    ensures var m := ConfigModuleMap(c);
      forall ws, n :: (ws in m.lists && n in m.lists[ws]) <==> ListedIn(c, ws, n)
  {
    var m := ConfigModuleMap(c);
    var e := Entries(c);
    BuildMapIsDedup(e);
    EntriesListed(c);
    forall ws, n | ListedIn(c, ws, n)
      ensures ws in m.lists
    {
      var i :| 0 <= i < |e| && e[i] == (ws, n);
      assert RawWorkspaces(e)[i] == ws;
    }
  }

  /** No key appears twice, and no list names a package twice. */
  lemma ModuleMapNoDups(c: Config)
    ensures NoDups(ConfigModuleMap(c).keys)
    ensures forall ws :: ws in ConfigModuleMap(c).lists ==> NoDups(ConfigModuleMap(c).lists[ws])
  {
    BuildMapIsDedup(Entries(c));
  }

  /** Keys follow the first appearance of each workspace string in the
      configuration, and each list follows the first appearance of each name
      among the packages that list that workspace. */
  lemma ModuleMapFirstSeenOrder(c: Config)
    ensures var m := ConfigModuleMap(c); var raw := RawWorkspaces(Entries(c));
      && (forall k :: k in m.keys ==> k in raw)
      && forall i, j :: 0 <= i < j < |m.keys| ==> IndexOf(raw, m.keys[i]) < IndexOf(raw, m.keys[j])
    ensures var m := ConfigModuleMap(c);
      forall ws :: ws in m.lists ==>
        && (forall n :: n in m.lists[ws] ==> n in NamesAt(Entries(c), ws))
        && forall i, j :: 0 <= i < j < |m.lists[ws]| ==>
             IndexOf(NamesAt(Entries(c), ws), m.lists[ws][i]) < IndexOf(NamesAt(Entries(c), ws), m.lists[ws][j])
  {
    var e := Entries(c);
    BuildMapIsDedup(e);
    DedupFirstSeenOrder(RawWorkspaces(e));
    forall ws | ws in ConfigModuleMap(c).lists {
      DedupFirstSeenOrder(NamesAt(e, ws));
    }
  }

  /** The loop of `reinstall` that fills workspaceModuleMap. */
  method BuildModuleMap(c: Config) returns (m: ModuleMap)
    ensures m == ConfigModuleMap(c)
  {
    var keys: seq<Path> := [];
    var lists: map<Path, seq<string>> := map[];
    for i := 0 to |c|
      invariant ModuleMap(keys, lists) == BuildMap(Entries(c[..i]))
    {
      var name := c[i].name;
      var workspace := Workspaces(c[i]);
      ghost var before := Entries(c[..i]);
      ghost var pe := PackageEntries(c[i]);
      assert before + pe[..0] == before;
      for j := 0 to |workspace|
        invariant ModuleMap(keys, lists) == BuildMap(before + pe[..j])
      {
        var projectPath := workspace[j];
        assert before + pe[..j + 1] == (before + pe[..j]) + [(projectPath, name)];
        BuildMapSnoc(before + pe[..j], (projectPath, name));
        ghost var m0 := ModuleMap(keys, lists);
        if projectPath !in lists {
          keys := keys + [projectPath];
          lists := lists[projectPath := [name]];
        } else if name !in lists[projectPath] {
          lists := lists[projectPath := lists[projectPath] + [name]];
        }
        assert ModuleMap(keys, lists) == Insert(m0, projectPath, name);
      }
      assert pe[..|workspace|] == pe;
      EntriesSnoc(c, i);
    }
    assert c[..|c|] == c;
    m := ModuleMap(keys, lists);
  }
}
