/**
 * Retirement of certificate generations: the whole manifest is validated before anything is removed.
 * The file system below the private root is a map from directory names to what they are; paths are walked
 * as they are spelled.
 */
module MaterialCleanup {
  import opened Wrappers

  type Name = string

  /** A file inside a directory: whether it is a regular file, and its link count. */
  datatype File = File(regular: bool, links: nat)

  /** An entry of the root. A link names what it resolves to. */
  datatype Node = Directory(files: map<Name, File>) | Link(target: Name) | NoDirectory

  type Entries = map<Name, Node>

  /** A path of the manifest, spelled as a parent and a last component. Paths are equal when spelled alike. */
  datatype Item = Item(parent: string, name: Name)

  /**
   * What is known of a spelled parent: whether it resolves to the private root, whether the part of it outside
   * the root's own directories can be walked, and which of those directories it passes through. Resolving does
   * not need the path to exist, walking does: `/root/a/../b` resolves to `/root/b` whatever `a` is, and can be
   * opened only while `a` is a directory. And of a spelled last component: which entry of the root it reaches.
   * That is the entry of this very name, unless the storage takes several spellings for one name.
   */
  datatype Paths = Paths(rooted: string -> bool, clear: string -> bool, through: string -> set<Name>,
                         entry: Name -> Name)
  {
    /** The entry that the last component of a path stands for. */
    function At(item: Item): Name { entry(item.name) }
  }

  const PREFIX := "generation-"

  predicate Generation(name: Name) {
    PREFIX <= name
  }

  predicate Expected(name: Name) {
    name == "cert.pem" || name == "key.pem"
  }

  /** Only certificate and key, each a regular file with one name. */
  predicate Removable(files: map<Name, File>) {
    forall f <- files :: Expected(f) && files[f].regular && files[f].links == 1
  }

  /** Whether every directory on the way of a spelled parent is there. */
  predicate Walkable(entries: Entries, paths: Paths, parent: string) {
    paths.clear(parent) && forall d <- paths.through(parent) :: d in entries && entries[d].Directory?
  }

  /** Whether the path, as it is spelled, leads to something. */
  predicate Reached(entries: Entries, paths: Paths, item: Item) {
    Walkable(entries, paths, item.parent) && paths.At(item) in entries
  }

  /** What the last component of a path resolves to: a link's target, or what is spelled. */
  function Resolved(entries: Entries, paths: Paths, item: Item): Name {
    if paths.At(item) in entries && entries[paths.At(item)].Link? then entries[paths.At(item)].target else item.name
  }

  datatype Verdict = Reject | Skip | Select

  /** The checks on one path of the manifest. */
  function Judge(entries: Entries, paths: Paths, active: set<Name>, item: Item): Verdict {
    if Reached(entries, paths, item) && entries[paths.At(item)].Link? then Reject
    else if !paths.rooted(item.parent) || !Generation(item.name) then Reject
    else if Resolved(entries, paths, item) in active then Reject
    else if !Reached(entries, paths, item) then Skip
    else if entries[paths.At(item)].NoDirectory? then Reject
    else if Removable(entries[paths.At(item)].files) then Select
    else Reject
  }

  /** A directory that holds nothing but a certificate and a key, each a regular file with one name. */
  predicate IsSound(node: Node) {
    match node
    case Directory(files) =>
      files.Keys <= {"cert.pem", "key.pem"} && forall f <- files.Keys :: files[f] == File(true, 1)
    case _ => false
  }

  /**
   * A path is selected exactly if it is a generation below the root, resolves to no active one, and leads to a
   * sound directory that is no link; it is passed over if all but the last holds and it leads to nothing.
   */
  lemma WhichPathsAreSelected(entries: Entries, paths: Paths, active: set<Name>, item: Item)
    ensures var eligible := paths.rooted(item.parent) && "generation-" <= item.name
                            && Resolved(entries, paths, item) !in active;
            var verdict := Judge(entries, paths, active, item);
            && (verdict == Select <==>
                  eligible && Reached(entries, paths, item) && IsSound(entries[paths.At(item)]))
            && (verdict == Skip <==> eligible && !Reached(entries, paths, item))
  {
    if Reached(entries, paths, item) && entries[paths.At(item)].Directory? {
      var files := entries[paths.At(item)].files;
      assert Removable(files) <==> IsSound(Directory(files));
    }
  }

  predicate Acceptable(entries: Entries, paths: Paths, active: set<Name>, items: seq<Item>) {
    forall i :: 0 <= i < |items| ==> Judge(entries, paths, active, items[i]) != Reject
  }

  /** The existing directories a manifest names by paths that lead to them. */
  function Named(entries: Entries, paths: Paths, items: seq<Item>): set<Name> {
    set i | 0 <= i < |items| && Reached(entries, paths, items[i]) :: paths.At(items[i])
  }

  // ----- what goes wrong in an accepted manifest

  /**
   * Path `j` leads to a directory, is not a repetition, and an earlier path names the same directory or one
   * that path `j` passes through.
   */
  predicate Faulty(entries: Entries, paths: Paths, items: seq<Item>, j: nat)
    requires j < |items|
  {
    && Reached(entries, paths, items[j]) && items[j] !in items[..j]
    && (paths.At(items[j]) in Named(entries, paths, items[..j])
        || exists d <- paths.through(items[j].parent) :: d in Named(entries, paths, items[..j]))
  }

  predicate Orderly(entries: Entries, paths: Paths, items: seq<Item>) {
    forall j: nat :: j < |items| ==> !Faulty(entries, paths, items, j)
  }

  // ----- a retirement as a function

  /** The paths to remove, each spelling once, in the order listed. */
  function Chosen(entries: Entries, paths: Paths, items: seq<Item>): (chosen: seq<Item>) {
    if items == [] then []
    else
      var last := |items| - 1;
      var front := Chosen(entries, paths, items[..last]);
      if Reached(entries, paths, items[last]) && items[last] !in front then front + [items[last]] else front
  }

  function Names(paths: Paths, chosen: seq<Item>): set<Name> {
    set i | 0 <= i < |chosen| :: paths.At(chosen[i])
  }

  /** Removing the paths before `j` takes away what path `j` names or passes through. */
  predicate Hit(paths: Paths, chosen: seq<Item>, j: nat)
    requires j < |chosen|
  {
    || paths.At(chosen[j]) in Names(paths, chosen[..j])
    || exists d <- paths.through(chosen[j].parent) :: d in Names(paths, chosen[..j])
  }

  function ClearFrom(paths: Paths, chosen: seq<Item>, n: nat): (removed: nat)
    requires n <= |chosen| && forall j: nat :: j < n ==> !Hit(paths, chosen, j)
    ensures n <= removed <= |chosen|
    ensures removed < |chosen| ==> Hit(paths, chosen, removed)
    ensures forall j: nat :: j < removed ==> !Hit(paths, chosen, j)
    decreases |chosen| - n
  {
    if n == |chosen| || Hit(paths, chosen, n) then n else ClearFrom(paths, chosen, n + 1)
  }

  /** How many paths are removed before one is hit. */
  function Clear(paths: Paths, chosen: seq<Item>): (removed: nat)
    ensures removed <= |chosen|
    ensures removed < |chosen| ==> Hit(paths, chosen, removed)
    ensures forall j: nat :: j < removed ==> !Hit(paths, chosen, j)
  {
    ClearFrom(paths, chosen, 0)
  }

  /** Rejected before any change, done, or cut off by a missing file after some removals. */
  datatype Outcome = Rejected | Retired(count: nat) | Broken

  /** The outcome of a retirement and the entries it leaves. */
  function Retirement(entries: Entries, paths: Paths, privateRoot: bool, quiescent: bool, active: set<Name>,
                      items: seq<Item>): (Outcome, Entries)
  {
    if !quiescent || !privateRoot || !Acceptable(entries, paths, active, items) then (Rejected, entries)
    else
      var chosen := Chosen(entries, paths, items);
      var removed := Clear(paths, chosen);
      (if removed < |chosen| then Broken else Retired(removed), entries - Names(paths, chosen[..removed]))
  }

  // ----- the same, as the source runs it

  class FileSystem {
    const paths: Paths
    var entries: Entries

    constructor (paths: Paths, entries: Entries)
      ensures this.paths == paths && this.entries == entries
    {
      this.paths, this.entries := paths, entries;
    }

    /** Removes a file of the directory a path leads to; fails if the path or the file is not there. */
    method Unlink(item: Item, file: Name) returns (done: bool)
      modifies this
      ensures done <==> Reached(old(entries), paths, item) && old(entries)[paths.At(item)].Directory?
                        && file in old(entries)[paths.At(item)].files
      ensures entries == if done then old(entries)[paths.At(item) := Directory(old(entries)[paths.At(item)].files - {file})]
                         else old(entries)
    {
      done := Reached(entries, paths, item) && entries[paths.At(item)].Directory? && file in entries[paths.At(item)].files;
      if done {
        entries := entries[paths.At(item) := Directory(entries[paths.At(item)].files - {file})];
      }
    }

    /** Removes the empty directory a path leads to; fails if the path does not, or the directory is not empty. */
    method RemoveDirectory(item: Item) returns (done: bool)
      modifies this
      ensures done <==> Reached(old(entries), paths, item) && old(entries)[paths.At(item)] == Directory(map[])
      ensures entries == if done then old(entries) - {paths.At(item)} else old(entries)
    {
      done := Reached(entries, paths, item) && entries[paths.At(item)] == Directory(map[]);
      if done {
        entries := entries - {paths.At(item)};
      }
    }
  }

  /** Taking a file out of a directory closes no path. */
  lemma WalksStay(entries: Entries, emptier: Entries, paths: Paths, parent: string, name: Name)
    requires name in entries && name in emptier && entries[name].Directory? && emptier[name].Directory?
    requires entries - {name} == emptier - {name}
    ensures Walkable(entries, paths, parent) <==> Walkable(emptier, paths, parent)
  {
    forall d ensures d in entries && entries[d].Directory? <==> d in emptier && emptier[d].Directory? {
      if d != name {
        assert d in entries <==> d in entries - {name};
        assert d in emptier <==> d in emptier - {name};
        assert d in entries ==> (entries - {name})[d] == entries[d];
        assert d in emptier ==> (emptier - {name})[d] == emptier[d];
      }
    }
  }

  /** Empties and removes the directory whose files were listed before; fails if its path no longer leads to it. */
  method RemoveGeneration(fs: FileSystem, item: Item, files: set<Name>) returns (done: bool)
    requires fs.paths.At(item) in fs.entries ==>
               fs.entries[fs.paths.At(item)].Directory? && fs.entries[fs.paths.At(item)].files.Keys == files
    modifies fs
    ensures done <==> Reached(old(fs.entries), fs.paths, item)
    ensures fs.entries == if done then old(fs.entries) - {fs.paths.At(item)} else old(fs.entries)
  {
    var left := files;
    ghost var before := fs.entries;
    while left != {}
      invariant left <= files
      invariant !Reached(before, fs.paths, item) ==> fs.entries == before
      invariant Reached(before, fs.paths, item) ==>
                  && fs.paths.At(item) in fs.entries && fs.entries[fs.paths.At(item)].Directory?
                  && fs.entries[fs.paths.At(item)].files.Keys == left
                  && fs.entries - {fs.paths.At(item)} == before - {fs.paths.At(item)}
      decreases left
    {
      var file :| file in left;
      if fs.paths.At(item) in before && fs.paths.At(item) in fs.entries && fs.entries[fs.paths.At(item)].Directory? {
        WalksStay(before, fs.entries, fs.paths, item.parent, fs.paths.At(item));
      }
      var unlinked := fs.Unlink(item, file);
      if !unlinked {
        return false;
      }
      left := left - {file};
    }
    if Reached(before, fs.paths, item) {
      WalksStay(before, fs.entries, fs.paths, item.parent, fs.paths.At(item));
    }
    done := fs.RemoveDirectory(item);
  }

  /** A directory to remove: its path, and the files listed in it. */
  datatype Selected = Selected(item: Item, files: set<Name>)

  function ItemOf(s: Selected): Item { s.item }

  /** The directories chosen, each with its files. */
  ghost predicate Lists(entries: Entries, paths: Paths, selected: seq<Selected>, chosen: seq<Item>) {
    && Mapped(selected, ItemOf) == chosen
    && forall i :: 0 <= i < |selected| ==>
         && Reached(entries, paths, selected[i].item)
         && entries[paths.At(selected[i].item)].Directory?
         && selected[i].files == entries[paths.At(selected[i].item)].files.Keys
  }

  /** The first loop: validates every path and lists the directories to remove, each spelling once. */
  method Validate(fs: FileSystem, active: set<Name>, items: seq<Item>) returns (selected: Option<seq<Selected>>)
    ensures selected.Some? <==> Acceptable(fs.entries, fs.paths, active, items)
    ensures selected.Some? ==>
              Lists(fs.entries, fs.paths, selected.value, Chosen(fs.entries, fs.paths, items))
  {
    var listed: seq<Selected> := [];
    for i := 0 to |items|
      invariant Acceptable(fs.entries, fs.paths, active, items[..i])
      invariant Lists(fs.entries, fs.paths, listed, Chosen(fs.entries, fs.paths, items[..i]))
    {
      var item := items[i];
      assert items[..i + 1][..i] == items[..i];
      var verdict := Judge(fs.entries, fs.paths, active, item);
      if verdict == Reject {
        return None;
      }
      if verdict == Select && item !in Mapped(listed, ItemOf) {
        listed := listed + [Selected(item, fs.entries[fs.paths.At(item)].files.Keys)];
      }
    }
    assert items[..|items|] == items;
    return Some(listed);
  }

  /** After the removal of earlier paths, path `j` still leads to its directory exactly if it is not hit. */
  lemma ReachedUnlessHit(entries: Entries, paths: Paths, chosen: seq<Item>, j: nat)
    requires j < |chosen| && Reached(entries, paths, chosen[j])
    ensures Reached(entries - Names(paths, chosen[..j]), paths, chosen[j]) <==> !Hit(paths, chosen, j)
  {
  }

  lemma NamesOneMore(paths: Paths, chosen: seq<Item>, i: nat)
    requires i < |chosen|
    ensures Names(paths, chosen[..i + 1]) == Names(paths, chosen[..i]) + {paths.At(chosen[i])}
  {
    var shorter, longer := chosen[..i], chosen[..i + 1];
    forall n | n in Names(paths, longer) ensures n in Names(paths, shorter) + {paths.At(chosen[i])} {
      var k :| 0 <= k < |longer| && paths.At(longer[k]) == n;
      assert k < i ==> shorter[k] == longer[k];
    }
    forall n | n in Names(paths, shorter) ensures n in Names(paths, longer) {
      var k :| 0 <= k < |shorter| && paths.At(shorter[k]) == n;
      assert longer[k] == shorter[k];
    }
    assert paths.At(longer[i]) == paths.At(chosen[i]);
  }

  /** The second loop: removes the selected directories until a path no longer leads to its directory. */
  method RemoveSelected(fs: FileSystem, selected: seq<Selected>) returns (removed: nat)
    requires Lists(fs.entries, fs.paths, selected, Mapped(selected, ItemOf))
    modifies fs
    ensures removed == Clear(fs.paths, Mapped(selected, ItemOf))
    ensures fs.entries == old(fs.entries) - Names(fs.paths, Mapped(selected, ItemOf)[..removed])
  {
    ghost var chosen := Mapped(selected, ItemOf);
    for i := 0 to |selected|
      invariant fs.entries == old(fs.entries) - Names(fs.paths, chosen[..i])
      invariant forall j: nat :: j < i ==> !Hit(fs.paths, chosen, j)
    {
      ReachedUnlessHit(old(fs.entries), fs.paths, chosen, i);
      NamesOneMore(fs.paths, chosen, i);
      var done := RemoveGeneration(fs, selected[i].item, selected[i].files);
      if !done {
        return i;
      }
    }
    return |selected|;
  }

  /** Retires a manifest: two loops, the first of which changes nothing. */
  method RetireGenerations(fs: FileSystem, privateRoot: bool, quiescent: bool, active: set<Name>, items: seq<Item>)
    returns (outcome: Outcome)
    modifies fs
    ensures (outcome, fs.entries) == Retirement(old(fs.entries), fs.paths, privateRoot, quiescent, active, items)
  {
    if !quiescent || !privateRoot {
      return Rejected;
    }
    var selected := Validate(fs, active, items);
    if selected.None? {
      return Rejected;
    }
    var removed := RemoveSelected(fs, selected.value);
    return if removed < |selected.value| then Broken else Retired(removed);
  }

  // ----- what a retirement means

  lemma {:induction false} ChosenAreReached(entries: Entries, paths: Paths, items: seq<Item>, x: Item)
    ensures x in Chosen(entries, paths, items) <==> x in items && Reached(entries, paths, x)
  {
    if items != [] {
      var last := |items| - 1;
      ChosenAreReached(entries, paths, items[..last], x);
      assert x in items <==> x in items[..last] || x == items[last];
    }
  }

  lemma NamesAreOfMembers(paths: Paths, chosen: seq<Item>, name: Name)
    ensures name in Names(paths, chosen) <==> exists x :: x in chosen && paths.At(x) == name
  {
    if name in Names(paths, chosen) {
      var i :| 0 <= i < |chosen| && paths.At(chosen[i]) == name;
      assert chosen[i] in chosen;
    }
    if x :| x in chosen && paths.At(x) == name {
      var i :| 0 <= i < |chosen| && chosen[i] == x;
    }
  }

  lemma NamedAreOfMembers(entries: Entries, paths: Paths, items: seq<Item>, name: Name)
    ensures name in Named(entries, paths, items)
       <==> exists x :: x in items && Reached(entries, paths, x) && paths.At(x) == name
  {
    if name in Named(entries, paths, items) {
      var i :| 0 <= i < |items| && Reached(entries, paths, items[i]) && paths.At(items[i]) == name;
      assert items[i] in items;
    }
    if x :| x in items && Reached(entries, paths, x) && paths.At(x) == name {
      var i :| 0 <= i < |items| && items[i] == x;
    }
  }

  lemma ChosenAreNamed(entries: Entries, paths: Paths, items: seq<Item>)
    ensures Names(paths, Chosen(entries, paths, items)) == Named(entries, paths, items)
    ensures forall x :: x in Chosen(entries, paths, items) <==> x in items && Reached(entries, paths, x)
  {
    forall x ensures x in Chosen(entries, paths, items) <==> x in items && Reached(entries, paths, x) {
      ChosenAreReached(entries, paths, items, x);
    }
    forall n ensures n in Names(paths, Chosen(entries, paths, items)) <==> n in Named(entries, paths, items) {
      NamesAreOfMembers(paths, Chosen(entries, paths, items), n);
      NamedAreOfMembers(entries, paths, items, n);
    }
  }

  lemma FaultsOfPrefix(entries: Entries, paths: Paths, items: seq<Item>, n: nat)
    requires n <= |items|
    ensures forall j: nat :: j < n ==> Faulty(entries, paths, items[..n], j) == Faulty(entries, paths, items, j)
  {
    forall j: nat | j < n ensures Faulty(entries, paths, items[..n], j) == Faulty(entries, paths, items, j) {
      assert items[..n][..j] == items[..j];
    }
  }

  /** One more path at the end changes neither the hits before it nor what was removed up to the first. */
  lemma ClearOfPrefix(paths: Paths, front: seq<Item>, chosen: seq<Item>)
    requires front <= chosen && |chosen| <= |front| + 1
    ensures Clear(paths, front) < |front| ==> Clear(paths, chosen) == Clear(paths, front)
    ensures Clear(paths, front) == |front| ==>
              Clear(paths, chosen) == if |chosen| > |front| && !Hit(paths, chosen, |front|) then |chosen| else |front|
  {
    forall j: nat | j < |front| ensures Hit(paths, front, j) == Hit(paths, chosen, j) {
      assert front[..j] == chosen[..j];
    }
  }

  /** The last path of a manifest is chosen and hit exactly if it is faulty. */
  lemma LastIsHitIfFaulty(entries: Entries, paths: Paths, items: seq<Item>)
    requires items != []
    ensures var last := |items| - 1;
            var front, chosen := Chosen(entries, paths, items[..last]), Chosen(entries, paths, items);
            && front <= chosen && |chosen| <= |front| + 1
            && (Faulty(entries, paths, items, last) <==> |chosen| > |front| && Hit(paths, chosen, |front|))
  {
    var last := |items| - 1;
    var front, chosen := Chosen(entries, paths, items[..last]), Chosen(entries, paths, items);
    ChosenAreNamed(entries, paths, items[..last]);
    if chosen != front {
      assert chosen[..|front|] == front && chosen[|front|] == items[last];
    }
  }

  /** The names taken away before a path is hit. */
  function RemovedBefore(entries: Entries, paths: Paths, items: seq<Item>): set<Name> {
    var chosen := Chosen(entries, paths, items);
    Names(paths, chosen[..Clear(paths, chosen)])
  }

  /** Path `k` is the first faulty one, or none is and `k` is the length of the manifest. */
  ghost predicate FirstFault(entries: Entries, paths: Paths, items: seq<Item>, k: nat) {
    && k <= |items| && (k < |items| ==> Faulty(entries, paths, items, k))
    && forall j: nat :: j < k ==> !Faulty(entries, paths, items, j)
  }

  /** Removal stops early exactly if some path is faulty, with the directories named before it gone. */
  predicate StopsThere(entries: Entries, paths: Paths, items: seq<Item>, k: nat)
    requires k <= |items|
  {
    && (k < |items| <==> Clear(paths, Chosen(entries, paths, items)) < |Chosen(entries, paths, items)|)
    && RemovedBefore(entries, paths, items) == Named(entries, paths, items[..k])
  }

  lemma EarlierFaultStays(entries: Entries, paths: Paths, items: seq<Item>, k: nat)
    requires items != [] && k < |items| - 1
    requires FirstFault(entries, paths, items[..|items| - 1], k) && StopsThere(entries, paths, items[..|items| - 1], k)
    ensures FirstFault(entries, paths, items, k) && StopsThere(entries, paths, items, k)
  {
    var last := |items| - 1;
    var front, chosen := Chosen(entries, paths, items[..last]), Chosen(entries, paths, items);
    FaultsOfPrefix(entries, paths, items, last);
    LastIsHitIfFaulty(entries, paths, items);
    ClearOfPrefix(paths, front, chosen);
    assert chosen[..Clear(paths, front)] == front[..Clear(paths, front)];
    assert items[..last][..k] == items[..k];
  }

  lemma LastIsFault(entries: Entries, paths: Paths, items: seq<Item>)
    requires items != [] && Faulty(entries, paths, items, |items| - 1)
    requires FirstFault(entries, paths, items[..|items| - 1], |items| - 1)
    requires StopsThere(entries, paths, items[..|items| - 1], |items| - 1)
    ensures FirstFault(entries, paths, items, |items| - 1) && StopsThere(entries, paths, items, |items| - 1)
  {
    var last := |items| - 1;
    var front, chosen := Chosen(entries, paths, items[..last]), Chosen(entries, paths, items);
    FaultsOfPrefix(entries, paths, items, last);
    LastIsHitIfFaulty(entries, paths, items);
    ClearOfPrefix(paths, front, chosen);
    assert chosen[..|front|] == front == front[..|front|];
    assert items[..last][..last] == items[..last];
  }

  lemma NoFaultYet(entries: Entries, paths: Paths, items: seq<Item>)
    requires items != [] && !Faulty(entries, paths, items, |items| - 1)
    requires FirstFault(entries, paths, items[..|items| - 1], |items| - 1)
    requires StopsThere(entries, paths, items[..|items| - 1], |items| - 1)
    ensures FirstFault(entries, paths, items, |items|) && StopsThere(entries, paths, items, |items|)
  {
    var last := |items| - 1;
    var front, chosen := Chosen(entries, paths, items[..last]), Chosen(entries, paths, items);
    FaultsOfPrefix(entries, paths, items, last);
    LastIsHitIfFaulty(entries, paths, items);
    ClearOfPrefix(paths, front, chosen);
    ChosenAreNamed(entries, paths, items);
    assert chosen[..|chosen|] == chosen && items[..|items|] == items;
  }

  /** The chosen path that is hit first is the first faulty one of the manifest. */
  lemma {:induction false} HitsAreFaults(entries: Entries, paths: Paths, items: seq<Item>)
    returns (k: nat)
    ensures FirstFault(entries, paths, items, k) && StopsThere(entries, paths, items, k)
  {
    if items == [] {
      k := 0;
    } else {
      var last := |items| - 1;
      k := HitsAreFaults(entries, paths, items[..last]);
      if k < last {
        EarlierFaultStays(entries, paths, items, k);
      } else if Faulty(entries, paths, items, last) {
        LastIsFault(entries, paths, items);
      } else {
        NoFaultYet(entries, paths, items);
        k := |items|;
      }
    }
  }

  /** While no path is hit, every removal takes away another directory. */
  lemma {:induction false} EachRemovalCounts(paths: Paths, chosen: seq<Item>, n: nat)
    requires n <= Clear(paths, chosen)
    ensures |Names(paths, chosen[..n])| == n
  {
    if n > 0 {
      EachRemovalCounts(paths, chosen, n - 1);
      NamesOneMore(paths, chosen, n - 1);
      assert !Hit(paths, chosen, n - 1);
    }
  }

  /**
   * A rejected manifest changes nothing. An accepted one is carried out in full, each of its existing
   * directories counted and removed once, if and only if none of its paths is faulty; otherwise exactly the
   * directories named before the first faulty path are gone.
   */
  lemma RetiredIffOrderly(entries: Entries, paths: Paths, privateRoot: bool, quiescent: bool, active: set<Name>,
                          items: seq<Item>)
    returns (k: nat)
    ensures k <= |items| && (k < |items| ==> Faulty(entries, paths, items, k))
    ensures k == |items| <==> Orderly(entries, paths, items)
    ensures forall j: nat :: j < k ==> !Faulty(entries, paths, items, j)
    ensures var (outcome, after) := Retirement(entries, paths, privateRoot, quiescent, active, items);
            && (outcome.Rejected? <==> !(quiescent && privateRoot && Acceptable(entries, paths, active, items)))
            && (outcome.Rejected? ==> after == entries)
            && (!outcome.Rejected? ==>
                  && (outcome.Retired? <==> Orderly(entries, paths, items))
                  && after == entries - Named(entries, paths, items[..k]))
            && (outcome.Retired? ==>
                  && outcome.count == |Named(entries, paths, items)|
                  && after == entries - Named(entries, paths, items))
  {
    k := HitsAreFaults(entries, paths, items);
    var chosen := Chosen(entries, paths, items);
    EachRemovalCounts(paths, chosen, Clear(paths, chosen));
    assert items[..|items|] == items;
  }

  /** A path that reaches the entry of an active generation under another spelling of its name. */
  predicate Renames(entries: Entries, paths: Paths, active: set<Name>, item: Item) {
    Reached(entries, paths, item) && exists a <- active :: a != item.name && paths.entry(a) == paths.At(item)
  }

  lemma ReachedActiveIsRenamed(entries: Entries, paths: Paths, active: set<Name>, item: Item, a: Name)
    requires Judge(entries, paths, active, item) != Reject && Reached(entries, paths, item)
    requires a in active && paths.entry(a) == paths.At(item)
    ensures Renames(entries, paths, active, item)
  {
    assert a != item.name;
  }

  /** Whether the generation of every active path is as it was. */
  predicate ActiveStay(before: Entries, after: Entries, paths: Paths, active: set<Name>) {
    forall a <- active :: paths.entry(a) in before ==>
      paths.entry(a) in after && after[paths.entry(a)] == before[paths.entry(a)]
  }

  /**
   * The generations of the active paths stay if and only if none of the paths carried out, those before the
   * first faulty one, reaches one of them under another spelling of its name.
   */
  lemma ActiveStayUnlessRenamed(entries: Entries, paths: Paths, active: set<Name>, items: seq<Item>) returns (k: nat)
    requires Acceptable(entries, paths, active, items)
    ensures FirstFault(entries, paths, items, k)
    ensures ActiveStay(entries, Retirement(entries, paths, true, true, active, items).1, paths, active)
       <==> forall i :: 0 <= i < k ==> !Renames(entries, paths, active, items[i])
  {
    k := RetiredIffOrderly(entries, paths, true, true, active, items);
    var gone := Named(entries, paths, items[..k]);
    if i :| 0 <= i < k && Renames(entries, paths, active, items[i]) {
      var a :| a in active && a != items[i].name && paths.entry(a) == paths.At(items[i]);
      assert items[..k][i] == items[i];
      assert paths.entry(a) in gone;
    }
    if a :| a in active && paths.entry(a) in gone {
      var i :| 0 <= i < k && Reached(entries, paths, items[..k][i]) && paths.At(items[..k][i]) == paths.entry(a);
      ReachedActiveIsRenamed(entries, paths, active, items[i], a);
    }
  }

  /** On storage that takes names exactly as spelled, no active generation is removed or altered. */
  lemma ActiveGenerationsStay(entries: Entries, paths: Paths, active: set<Name>, items: seq<Item>)
    requires Acceptable(entries, paths, active, items) && forall name :: paths.entry(name) == name
    ensures Named(entries, paths, items) !! active
    ensures ActiveStay(entries, Retirement(entries, paths, true, true, active, items).1, paths, active)
    ensures forall name :: name in active && name in entries ==>
              && name in entries - Named(entries, paths, items)
              && (entries - Named(entries, paths, items))[name] == entries[name]
  {
    var k := ActiveStayUnlessRenamed(entries, paths, active, items);
  }

  /**
   * Whatever is removed was listed below the root by a name with the prefix, and is a directory that holds
   * nothing but its own certificate and key.
   */
  lemma OnlyGenerationsGo(entries: Entries, paths: Paths, active: set<Name>, items: seq<Item>, name: Name)
    requires Acceptable(entries, paths, active, items) && name in Named(entries, paths, items)
    ensures entries[name].Directory?
    ensures forall f <- entries[name].files ::
              (f == "cert.pem" || f == "key.pem") && entries[name].files[f] == File(true, 1)
    ensures exists item <- items ::
              paths.rooted(item.parent) && "generation-" <= item.name && paths.At(item) == name
    ensures (forall n :: paths.entry(n) == n) ==> Generation(name)
  {
    var i :| 0 <= i < |items| && Reached(entries, paths, items[i]) && paths.At(items[i]) == name;
    assert items[i] in items;
  }

  lemma {:induction false} UnreachedAreNotChosen(entries: Entries, paths: Paths, items: seq<Item>)
    requires forall x :: x in items ==> !Reached(entries, paths, x)
    ensures Chosen(entries, paths, items) == []
  {
    if items != [] {
      UnreachedAreNotChosen(entries, paths, items[..|items| - 1]);
    }
  }

  lemma NothingChosen(entries: Entries, paths: Paths, privateRoot: bool, quiescent: bool, active: set<Name>,
                      items: seq<Item>)
    requires forall x :: x in items ==> !Reached(entries, paths, x)
    requires privateRoot && quiescent && Acceptable(entries, paths, active, items)
    ensures Retirement(entries, paths, privateRoot, quiescent, active, items) == (Retired(0), entries)
  {
    UnreachedAreNotChosen(entries, paths, items);
    assert Names(paths, []) == {};
    assert entries - {} == entries;
  }

  lemma NothingNewIsActive(entries: Entries, paths: Paths, active: set<Name>, items: seq<Item>, i: nat)
    requires Acceptable(entries, paths, active, items) && i < |items|
    ensures Resolved(entries - Named(entries, paths, items), paths, items[i]) !in active
  {
    var name := paths.At(items[i]);
    assert Judge(entries, paths, active, items[i]) != Reject;
    if name in Named(entries, paths, items) {
      OnlyGenerationsGo(entries, paths, active, items, name);
    }
  }

  /** Repeating a completed retirement is accepted, finds nothing left, and changes nothing. */
  lemma RepeatingRetiresNothing(entries: Entries, paths: Paths, active: set<Name>, items: seq<Item>)
    requires Acceptable(entries, paths, active, items)
    ensures var after := entries - Named(entries, paths, items);
            Retirement(after, paths, true, true, active, items) == (Retired(0), after)
  {
    var after := entries - Named(entries, paths, items);
    forall i | 0 <= i < |items|
      ensures !Reached(after, paths, items[i]) && Judge(after, paths, active, items[i]) != Reject
    {
      assert Reached(entries, paths, items[i]) ==> paths.At(items[i]) in Named(entries, paths, items);
      NothingNewIsActive(entries, paths, active, items, i);
    }
    NothingChosen(after, paths, true, true, active, items);
  }

  // ----- accepted manifests that are not carried out

  /** A directory that validation selects. */
  predicate Sound(entries: Entries, paths: Paths, active: set<Name>, item: Item) {
    Judge(entries, paths, active, item) == Select
  }

  lemma ChosenOfTwo(entries: Entries, paths: Paths, first: Item, second: Item)
    requires Reached(entries, paths, first) && Reached(entries, paths, second) && first != second
    ensures Chosen(entries, paths, [first, second]) == [first, second]
  {
    assert [first, second][..1] == [first] && [first][..0] == [];
    assert Chosen(entries, paths, [first]) == [first];
  }

  lemma SecondIsFaulty(entries: Entries, paths: Paths, active: set<Name>, first: Item, second: Item)
    requires Sound(entries, paths, active, first) && Sound(entries, paths, active, second) && first != second
    requires paths.At(first) == paths.At(second) || paths.At(first) in paths.through(second.parent)
    ensures Retirement(entries, paths, true, true, active, [first, second])
         == (Broken, entries - {paths.At(first)})
  {
    ChosenOfTwo(entries, paths, first, second);
    var chosen := [first, second];
    assert chosen[..1] == [first] && chosen[..0] == [];
    assert paths.At([first][0]) in Names(paths, [first]);
    assert !Hit(paths, chosen, 0) && Hit(paths, chosen, 1);
    assert Clear(paths, chosen) == 1;
    assert Names(paths, [first]) == {paths.At(first)};
  }

  /**
   * A directory listed under two spellings, of its parent or of its own name, passes validation; it is removed,
   * and then the removal stops.
   */
  lemma AliasesBreak(entries: Entries, paths: Paths, active: set<Name>, first: Item, second: Item)
    requires Sound(entries, paths, active, first) && Sound(entries, paths, active, second)
    requires first != second && paths.At(first) == paths.At(second)
    ensures Retirement(entries, paths, true, true, active, [first, second])
         == (Broken, entries - {paths.At(first)})
  {
    SecondIsFaulty(entries, paths, active, first, second);
  }

  lemma BothAreRemoved(entries: Entries, paths: Paths, active: set<Name>, first: Item, second: Item)
    requires Sound(entries, paths, active, first) && Sound(entries, paths, active, second)
    requires paths.At(first) != paths.At(second) && paths.At(first) !in paths.through(second.parent)
    ensures Retirement(entries, paths, true, true, active, [first, second])
         == (Retired(2), entries - {paths.At(first), paths.At(second)})
  {
    ChosenOfTwo(entries, paths, first, second);
    var chosen := [first, second];
    assert chosen[..1] == [first] && chosen[..0] == [] && chosen[..2] == chosen;
    assert Names(paths, [first]) == {paths.At(first)};
    assert !Hit(paths, chosen, 0) && !Hit(paths, chosen, 1);
    assert Clear(paths, chosen) == 2;
    NamesOneMore(paths, chosen, 1);
    assert Names(paths, chosen) == {paths.At(first), paths.At(second)};
  }

  /**
   * So does a path spelled through a directory that is listed before it, although no directory is listed
   * twice. Listed the other way round both are removed.
   */
  lemma PathsThroughRetiredBreak(entries: Entries, paths: Paths, active: set<Name>, first: Item, second: Item)
    requires Sound(entries, paths, active, first) && Sound(entries, paths, active, second)
    requires paths.At(first) != paths.At(second)
    requires paths.At(first) in paths.through(second.parent) && paths.At(second) !in paths.through(first.parent)
    ensures Retirement(entries, paths, true, true, active, [first, second])
         == (Broken, entries - {paths.At(first)})
    ensures Retirement(entries, paths, true, true, active, [second, first])
         == (Retired(2), entries - {paths.At(first), paths.At(second)})
  {
    SecondIsFaulty(entries, paths, active, first, second);
    BothAreRemoved(entries, paths, active, second, first);
    assert {paths.At(second), paths.At(first)} == {paths.At(first), paths.At(second)};
  }

  /** For instance, with two sound generations below `/r`: the second path, each directory listed once. */
  lemma ThroughGenerationA(files: map<Name, File>)
    requires Removable(files)
    ensures var entries := map["generation-a" := Directory(files), "generation-b" := Directory(files)];
            var through := (p: string) => if p == "/r/generation-a/.." then {"generation-a"} else {};
            var paths := Paths(p => true, p => true, through, n => n);
            var items := [Item("/r", "generation-a"), Item("/r/generation-a/..", "generation-b")];
            Retirement(entries, paths, true, true, {}, items) == (Broken, entries - {"generation-a"})
  {
    var entries := map["generation-a" := Directory(files), "generation-b" := Directory(files)];
    var through := (p: string) => if p == "/r/generation-a/.." then {"generation-a"} else {};
    var paths := Paths(p => true, p => true, through, n => n);
    PathsThroughRetiredBreak(entries, paths, {}, Item("/r", "generation-a"), Item("/r/generation-a/..", "generation-b"));
  }

  /** An active generation listed under another spelling of its name passes validation and is removed. */
  lemma RenamedActiveIsRemoved(entries: Entries, paths: Paths, active: set<Name>, item: Item, a: Name)
    requires Sound(entries, paths, active, item) && a in active && paths.entry(a) == paths.At(item)
    ensures Retirement(entries, paths, true, true, active, [item]) == (Retired(1), entries - {paths.entry(a)})
  {
    assert [item][..0] == [] && [item][..1] == [item];
    assert Chosen(entries, paths, [item]) == [item];
    assert !Hit(paths, [item], 0);
    assert paths.At([item][0]) in Names(paths, [item]);
    assert Names(paths, [item]) == {paths.At(item)};
  }

  /** A storage that takes `generation-ABC` for `generation-abc`, as one that ignores case does. */
  function IgnoringCase(): Paths {
    Paths(p => true, p => true, p => {}, n => if n == "generation-ABC" then "generation-abc" else n)
  }

  /** For instance `generation-ABC` listed while a path in `generation-abc` is active. */
  lemma ActiveUnderAnotherName(files: map<Name, File>)
    requires Removable(files)
    ensures var entries := map["generation-abc" := Directory(files)];
            Retirement(entries, IgnoringCase(), true, true, {"generation-abc"}, [Item("/r", "generation-ABC")])
              == (Retired(1), entries - {"generation-abc"})
  {
    var entries := map["generation-abc" := Directory(files)];
    var item := Item("/r", "generation-ABC");
    assert item.name[..11] == PREFIX && item.name != "generation-abc" by {
      assert item.name[11] == 'A' && "generation-abc"[11] == 'a';
    }
    RenamedActiveIsRemoved(entries, IgnoringCase(), {"generation-abc"}, item, "generation-abc");
  }

  /** And both spellings listed while neither is active. */
  lemma TwoSpellingsOfOneName(files: map<Name, File>)
    requires Removable(files)
    ensures var entries := map["generation-abc" := Directory(files)];
            Retirement(entries, IgnoringCase(), true, true, {},
                       [Item("/r", "generation-abc"), Item("/r", "generation-ABC")])
              == (Broken, entries - {"generation-abc"})
  {
    var entries := map["generation-abc" := Directory(files)];
    var first, second := Item("/r", "generation-abc"), Item("/r", "generation-ABC");
    assert first.name[..11] == PREFIX && second.name[..11] == PREFIX;
    assert first.name[11] != second.name[11];
    AliasesBreak(entries, IgnoringCase(), {}, first, second);
  }

  /** A path through a directory that is not there is passed over, even if what it resolves to is there. */
  lemma BlockedPathsAreSkipped(entries: Entries, paths: Paths, active: set<Name>, item: Item)
    requires paths.rooted(item.parent) && Generation(item.name) && Resolved(entries, paths, item) !in active
    requires !paths.clear(item.parent)
             || exists d <- paths.through(item.parent) :: d !in entries || !entries[d].Directory?
    ensures Retirement(entries, paths, true, true, active, [item]) == (Retired(0), entries)
  {
    NothingChosen(entries, paths, true, true, active, [item]);
  }
}
