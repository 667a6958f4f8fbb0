/** The budgeted walk over an attempt's directory (composition/production_bootstrap_runtime.py). */
module ReceiptWalk {
  import opened Basics
  import opened Ordering
  import opened Worklists

  const MAX_DIRECTORIES: nat := 256
  const MAX_FILES: nat := 4096
  const SUFFIX: string := ".receipt.json"

  // `Unusable`: a link, a special file, or something the system refuses to inspect or list.
  datatype Node = Directory(entries: seq<Entry>) | Regular | Unusable

  datatype Entry = Entry(name: string, node: Node)

  ghost function Child(path: string, name: string): string {
    path + "/" + name
  }

  // The name of a receipt file.
  ghost predicate IsReceipt(name: string) {
    exists stem: string :: name == stem + ".receipt.json"
  }

  lemma ReceiptEnding(name: string)
    ensures IsReceipt(name) <==> |SUFFIX| <= |name| && name[|name| - |SUFFIX|..] == SUFFIX
  {
    if |SUFFIX| <= |name| && name[|name| - |SUFFIX|..] == SUFFIX {
      assert name == name[..|name| - |SUFFIX|] + ".receipt.json";
    }
  }

  // ------------------------------------------------------------- the recursive reference

  datatype Counts = Counts(directories: nat, files: nat, unusable: nat)

  ghost function Add(a: Counts, b: Counts): Counts {
    Counts(a.directories + b.directories, a.files + b.files, a.unusable + b.unusable)
  }

  // Everything at or below one node.
  ghost function Count(node: Node): Counts
    decreases node
  {
    match node
    case Directory(entries) => Add(Counts(1, 0, 0), CountAll(entries))
    case Regular => Counts(0, 1, 0)
    case Unusable => Counts(0, 0, 1)
  }

  ghost function CountAll(entries: seq<Entry>): Counts
    decreases entries
  {
    if entries == [] then Counts(0, 0, 0) else Add(Count(entries[0].node), CountAll(entries[1..]))
  }

  // The receipts at or below one node, each as often as it occurs.
  ghost function Receipts(path: string, name: string, node: Node): multiset<string>
    decreases node
  {
    match node
    case Directory(entries) => ReceiptsAll(path, entries)
    case Regular => if IsReceipt(name) then multiset{path} else multiset{}
    case Unusable => multiset{}
  }

  ghost function ReceiptsAll(path: string, entries: seq<Entry>): multiset<string>
    decreases entries
  {
    if entries == [] then multiset{}
    else Receipts(Child(path, entries[0].name), entries[0].name, entries[0].node) + ReceiptsAll(path, entries[1..])
  }

  ghost predicate Accepts(root: Node) {
    && root.Directory? && Count(root).unusable == 0
    && Count(root).directories <= 256 && Count(root).files <= 4096
  }

  // ---------------------------------------------------------------------------- the walk

  datatype Pending = Pending(path: string, entries: seq<Entry>)

  ghost function Total<T>(weight: T -> nat, s: seq<T>): nat {
    if s == [] then 0 else weight(s[0]) + Total(weight, s[1..])
  }

  ghost function Directories(p: Pending): nat {
    1 + CountAll(p.entries).directories
  }

  ghost function Files(p: Pending): nat {
    CountAll(p.entries).files
  }

  ghost function UnusableBelow(p: Pending): nat {
    CountAll(p.entries).unusable
  }

  ghost function PendingReceipts(pending: seq<Pending>): multiset<string> {
    if pending == [] then multiset{}
    else ReceiptsAll(pending[0].path, pending[0].entries) + PendingReceipts(pending[1..])
  }

  lemma {:induction false} TotalAppend<T>(weight: T -> nat, s: seq<T>, more: seq<T>)
    ensures Total(weight, s + more) == Total(weight, s) + Total(weight, more)
  {
    if s == [] {
      assert s + more == more;
    } else {
      assert (s + more)[1..] == s[1..] + more;
      TotalAppend(weight, s[1..], more);
    }
  }

  lemma {:induction false} TotalMiddle<T>(weight: T -> nat, before: seq<T>, x: T, after: seq<T>)
    ensures Total(weight, before + ([x] + after)) == weight(x) + Total(weight, before + after)
  {
    assert ([x] + after)[1..] == after;
    TotalAppend(weight, before, [x] + after);
    TotalAppend(weight, before, after);
  }

  lemma {:induction false} TotalRemove<T>(weight: T -> nat, s: seq<T>, i: nat)
    requires i < |s|
    ensures Total(weight, s) == weight(s[i]) + Total(weight, Remove(s, i))
  {
    assert s == s[..i] + ([s[i]] + s[i + 1..]);
    TotalMiddle(weight, s[..i], s[i], s[i + 1..]);
  }

  lemma {:induction false} TotalPush<T>(weight: T -> nat, s: seq<T>, x: T)
    ensures Total(weight, s + [x]) == Total(weight, s) + weight(x)
  {
    TotalAppend(weight, s, [x]);
    assert [x][1..] == [];
  }

  lemma {:induction false} ReceiptsAppend(pending: seq<Pending>, more: seq<Pending>)
    ensures PendingReceipts(pending + more) == PendingReceipts(pending) + PendingReceipts(more)
  {
    if pending == [] {
      assert pending + more == more;
    } else {
      assert (pending + more)[1..] == pending[1..] + more;
      ReceiptsAppend(pending[1..], more);
    }
  }

  // What has been counted, what waits and what is left of the current directory add up to
  // everything below the root.
  ghost predicate Balanced(root: Counts, directories: nat, files: nat, pending: seq<Pending>, rest: Counts) {
    && root.directories == directories + Total(Directories, pending) + rest.directories
    && root.files == files + Total(Files, pending) + rest.files
    && root.unusable == Total(UnusableBelow, pending) + rest.unusable
  }

  ghost predicate Collected(all: multiset<string>, found: seq<string>, pending: seq<Pending>, path: string,
                            rest: seq<Entry>) {
    all == multiset(found) + PendingReceipts(pending) + ReceiptsAll(path, rest)
  }

  lemma {:induction false} PopBalances(root: Counts, directories: nat, files: nat, pending: seq<Pending>, i: nat)
    requires i < |pending| && Balanced(root, directories, files, pending, Counts(0, 0, 0))
    ensures Balanced(root, directories + 1, files, Remove(pending, i), CountAll(pending[i].entries))
    ensures Total(Directories, Remove(pending, i)) + CountAll(pending[i].entries).directories
            < Total(Directories, pending)
  {
    TotalRemove(Directories, pending, i);
    TotalRemove(Files, pending, i);
    TotalRemove(UnusableBelow, pending, i);
  }

  lemma PopCollects(all: multiset<string>, found: seq<string>, pending: seq<Pending>, i: nat)
    requires i < |pending| && Collected(all, found, pending, "", [])
    ensures Collected(all, found, Remove(pending, i), pending[i].path, pending[i].entries)
  {
    var tail := [pending[i]] + pending[i + 1..];
    assert pending == pending[..i] + tail && tail[1..] == pending[i + 1..];
    ReceiptsAppend(pending[..i], tail);
    ReceiptsAppend(pending[..i], pending[i + 1..]);
    assert PendingReceipts(tail) ==
      ReceiptsAll(pending[i].path, pending[i].entries) + PendingReceipts(pending[i + 1..]);
  }

  lemma EntryCounts(entries: seq<Entry>, k: nat)
    requires k < |entries|
    ensures CountAll(entries[k..]) == Add(Count(entries[k].node), CountAll(entries[k + 1..]))
  {
    assert entries[k..][1..] == entries[k + 1..];
  }

  lemma {:induction false} EntryReceipts(path: string, entries: seq<Entry>, k: nat)
    requires k < |entries|
    ensures ReceiptsAll(path, entries[k..]) ==
            Receipts(Child(path, entries[k].name), entries[k].name, entries[k].node)
            + ReceiptsAll(path, entries[k + 1..])
  {
    assert entries[k..][1..] == entries[k + 1..];
  }

  lemma {:induction false} PushBalances(root: Counts, directories: nat, files: nat, pending: seq<Pending>,
                                        pushed: Pending, entries: seq<Entry>, k: nat)
    requires k < |entries| && entries[k].node == Directory(pushed.entries)
    requires Balanced(root, directories, files, pending, CountAll(entries[k..]))
    ensures Balanced(root, directories, files, pending + [pushed], CountAll(entries[k + 1..]))
    ensures Total(Directories, pending + [pushed]) + CountAll(entries[k + 1..]).directories
            == Total(Directories, pending) + CountAll(entries[k..]).directories
  {
    EntryCounts(entries, k);
    TotalPush(Directories, pending, pushed);
    TotalPush(Files, pending, pushed);
    TotalPush(UnusableBelow, pending, pushed);
  }

  lemma PushCollects(all: multiset<string>, found: seq<string>, pending: seq<Pending>, path: string,
                     entries: seq<Entry>, k: nat)
    requires k < |entries| && entries[k].node.Directory? && Collected(all, found, pending, path, entries[k..])
    ensures Collected(all, found, pending + [Pending(Child(path, entries[k].name), entries[k].node.entries)],
                      path, entries[k + 1..])
  {
    var pushed := Pending(Child(path, entries[k].name), entries[k].node.entries);
    EntryReceipts(path, entries, k);
    assert [pushed][1..] == [];
    ReceiptsAppend(pending, [pushed]);
  }

  lemma FileCollects(all: multiset<string>, found: seq<string>, pending: seq<Pending>, path: string,
                     entries: seq<Entry>, k: nat)
    requires k < |entries| && entries[k].node.Regular? && Collected(all, found, pending, path, entries[k..])
    ensures Collected(all, if IsReceipt(entries[k].name) then found + [Child(path, entries[k].name)] else found,
                      pending, path, entries[k + 1..])
  {
    EntryReceipts(path, entries, k);
  }

  method ChildPath(path: string, name: string) returns (child: string)
    ensures child == Child(path, name)
  {
    child := path + "/" + name;
  }

  // A regular file whose name ends in the suffix.
  method AddReceipt(found: seq<string>, path: string, name: string) returns (more: seq<string>)
    ensures more == if IsReceipt(name) then found + [Child(path, name)] else found
  {
    ReceiptEnding(name);
    more := found;
    if |SUFFIX| <= |name| && name[|name| - |SUFFIX|..] == SUFFIX {
      var child := ChildPath(path, name);
      more := found + [child];
    }
  }

  // The inner loop, over the children of one directory.
  method VisitChildren(ghost root: Counts, ghost all: multiset<string>, ghost directories: nat, current: Pending,
                       pending: seq<Pending>, files: nat, found: seq<string>)
    returns (ok: bool, pending': seq<Pending>, files': nat, found': seq<string>)
    requires files <= MAX_FILES
    requires Balanced(root, directories, files, pending, CountAll(current.entries))
    requires Collected(all, found, pending, current.path, current.entries)
    ensures !ok ==> root.unusable > 0 || root.files > MAX_FILES
    ensures ok ==> files' <= MAX_FILES && Balanced(root, directories, files', pending', Counts(0, 0, 0))
    ensures ok ==> Collected(all, found', pending', "", [])
    ensures ok ==>
      Total(Directories, pending') == Total(Directories, pending) + CountAll(current.entries).directories
  {
    pending', files', found' := pending, files, found;
    assert current.entries[0..] == current.entries;
    for k := 0 to |current.entries|
      invariant files' <= MAX_FILES
      invariant Balanced(root, directories, files', pending', CountAll(current.entries[k..]))
      invariant Collected(all, found', pending', current.path, current.entries[k..])
      invariant Total(Directories, pending') + CountAll(current.entries[k..]).directories
                == Total(Directories, pending) + CountAll(current.entries).directories
    {
      var entry := current.entries[k];
      EntryCounts(current.entries, k);
      if entry.node.Unusable? {
        return false, pending', files', found';
      }
      if entry.node.Directory? {
        var path := ChildPath(current.path, entry.name);
        var pushed := Pending(path, entry.node.entries);
        PushBalances(root, directories, files', pending', pushed, current.entries, k);
        PushCollects(all, found', pending', current.path, current.entries, k);
        pending' := pending' + [pushed];
        continue;
      }
      FileCollects(all, found', pending', current.path, current.entries, k);
      files' := files' + 1;
      if files' > MAX_FILES {
        return false, pending', files', found';
      }
      found' := AddReceipt(found', current.path, entry.name);
    }
    return true, pending', files', found';
  }

  lemma {:induction false} StartBalances(path: string, root: Node)
    requires root.Directory?
    ensures Balanced(Count(root), 0, 0, [Pending(path, root.entries)], Counts(0, 0, 0))
    ensures Collected(Receipts(path, "", root), [], [Pending(path, root.entries)], "", [])
  {
    assert [Pending(path, root.entries)][1..] == [];
  }

  // Accepted exactly when the tree fits, and then every receipt is listed, sorted by path.
  ghost predicate IsAnswer(path: string, root: Node, result: Option<seq<string>>) {
    && (result.Some? <==> Accepts(root))
    && (result.Some? ==>
          multiset(result.value) == Receipts(path, "", root) && InTextOrder(result.value))
  }

  lemma {:induction false} EmptiedIsAnswer(path: string, root: Node, directories: nat, files: nat, found: seq<string>)
    requires root.Directory? && directories <= MAX_DIRECTORIES && files <= MAX_FILES
    requires Balanced(Count(root), directories, files, [], Counts(0, 0, 0))
    requires Collected(Receipts(path, "", root), found, [], "", [])
    ensures IsAnswer(path, root, Some(Sort(StringLeq, found)))
  {
    StringOrderIsTotal();
    SortSorts(StringLeq, found);
    SortPermutes(StringLeq, found);
    SortedIsInTextOrder(Sort(StringLeq, found));
  }

  // The code pops the last directory. Here any one may be popped, each time anew: the answer is
  // the same.
  method NestedReceipts(path: string, root: Node) returns (result: Option<seq<string>>)
    ensures IsAnswer(path, root, result)
  {
    if !root.Directory? {
      return None;
    }
    ghost var all, total := Receipts(path, "", root), Count(root);
    var pending := [Pending(path, root.entries)];
    StartBalances(path, root);
    var directories: nat, files: nat, found: seq<string> := 0, 0, [];
    while pending != []
      invariant directories <= MAX_DIRECTORIES && files <= MAX_FILES
      invariant Balanced(total, directories, files, pending, Counts(0, 0, 0))
      invariant Collected(all, found, pending, "", [])
      decreases Total(Directories, pending)
    {
      var i: nat :| i < |pending|;
      var current := pending[i];
      PopBalances(total, directories, files, pending, i);
      PopCollects(all, found, pending, i);
      pending := Remove(pending, i);
      directories := directories + 1;
      if directories > MAX_DIRECTORIES {
        return None;
      }
      var ok: bool;
      ok, pending, files, found := VisitChildren(total, all, directories, current, pending, files, found);
      if !ok {
        return None;
      }
    }
    EmptiedIsAnswer(path, root, directories, files, found);
    return Some(Sort(StringLeq, found));
  }

  // ------------------------------------------------------- what the reference itself says

  // A file below a node, reached by these names.
  ghost predicate Leads(node: Node, names: seq<string>) {
    if names == [] then node.Regular?
    else node.Directory? && exists k :: 0 <= k < |node.entries| && node.entries[k].name == names[0]
                                        && Leads(node.entries[k].node, names[1..])
  }

  ghost function Joined(path: string, names: seq<string>): string
    decreases |names|
  {
    if names == [] then path else Joined(Child(path, names[0]), names[1..])
  }

  ghost function LastName(name: string, names: seq<string>): string {
    if names == [] then name else names[|names| - 1]
  }

  lemma {:induction false} EntryOfReceipt(path: string, entries: seq<Entry>, file: string) returns (k: nat)
    requires file in ReceiptsAll(path, entries)
    ensures k < |entries| && file in Receipts(Child(path, entries[k].name), entries[k].name, entries[k].node)
    decreases |entries|
  {
    if file in Receipts(Child(path, entries[0].name), entries[0].name, entries[0].node) {
      k := 0;
    } else {
      var rest := EntryOfReceipt(path, entries[1..], file);
      k := rest + 1;
    }
  }

  lemma {:induction false} ReceiptOfEntry(path: string, entries: seq<Entry>, k: nat, file: string)
    requires k < |entries| && file in Receipts(Child(path, entries[k].name), entries[k].name, entries[k].node)
    ensures file in ReceiptsAll(path, entries)
    decreases k
  {
    if k > 0 {
      ReceiptOfEntry(path, entries[1..], k - 1, file);
    }
  }

  lemma {:induction false} ReceiptLeads(path: string, name: string, node: Node, file: string)
    returns (names: seq<string>)
    requires file in Receipts(path, name, node)
    ensures Leads(node, names) && file == Joined(path, names) && IsReceipt(LastName(name, names))
    decreases node
  {
    match node
    case Regular => names := [];
    case Directory(entries) =>
      var k := EntryOfReceipt(path, entries, file);
      var rest := ReceiptLeads(Child(path, entries[k].name), entries[k].name, entries[k].node, file);
      names := [entries[k].name] + rest;
      assert names[1..] == rest;
  }

  lemma {:induction false} LeadsReceipt(path: string, name: string, node: Node, names: seq<string>)
    requires Leads(node, names) && IsReceipt(LastName(name, names))
    ensures Joined(path, names) in Receipts(path, name, node)
    decreases node
  {
    if names != [] {
      var k :| 0 <= k < |node.entries| && node.entries[k].name == names[0] && Leads(node.entries[k].node, names[1..]);
      LeadsReceipt(Child(path, names[0]), names[0], node.entries[k].node, names[1..]);
      ReceiptOfEntry(path, node.entries, k, Joined(path, names));
    }
  }

  // The listing holds exactly the regular files below the root whose name ends in the suffix.
  lemma {:induction false} ReceiptsAreExact(path: string, root: Node, file: string)
    requires root.Directory?
    ensures file in Receipts(path, "", root) <==>
            exists names :: names != [] && Leads(root, names) && IsReceipt(names[|names| - 1])
                            && file == Joined(path, names)
  {
    if file in Receipts(path, "", root) {
      var names := ReceiptLeads(path, "", root, file);
    }
    if names :| names != [] && Leads(root, names) && IsReceipt(names[|names| - 1]) && file == Joined(path, names) {
      LeadsReceipt(path, "", root, names);
    }
  }

  // ------------------------------------------------------------------------- each once

  // What a file system guarantees: the names in one directory differ and hold no slash.
  ghost predicate WellNamed(node: Node) {
    node.Directory? ==>
      && (forall i, j :: 0 <= i < j < |node.entries| ==> node.entries[i].name != node.entries[j].name)
      && (forall k :: 0 <= k < |node.entries| ==> '/' !in node.entries[k].name && WellNamed(node.entries[k].node))
  }

  ghost predicate Under(path: string, file: string) {
    path <= file && (|file| > |path| ==> file[|path|] == '/')
  }

  lemma {:induction false} ReceiptsAreUnder(path: string, name: string, node: Node, file: string)
    requires file in Receipts(path, name, node)
    ensures Under(path, file)
    decreases node
  {
    if node.Directory? {
      var k := EntryOfReceipt(path, node.entries, file);
      var child := Child(path, node.entries[k].name);
      ReceiptsAreUnder(child, node.entries[k].name, node.entries[k].node, file);
      assert child[..|path|] == path && child[|path|] == '/';
    }
  }

  lemma LongerHoldsSlash(path: string, a: string, b: string, file: string)
    requires |a| < |b| && Under(Child(path, a), file) && Under(Child(path, b), file)
    ensures '/' in b
  {
    assert Child(path, b)[|Child(path, a)|] == b[|a|];
  }

  lemma SiblingsDiffer(path: string, a: string, b: string, file: string)
    requires '/' !in a && '/' !in b && Under(Child(path, a), file) && Under(Child(path, b), file)
    ensures a == b
  {
    if |a| < |b| {
      LongerHoldsSlash(path, a, b, file);
    } else if |b| < |a| {
      LongerHoldsSlash(path, b, a, file);
    } else {
      assert Child(path, a)[|path| + 1..] == a && Child(path, b)[|path| + 1..] == b;
      assert Child(path, a) == file[..|path| + 1 + |a|] == Child(path, b);
    }
  }

  lemma {:induction false} EachReceiptOnce(path: string, name: string, node: Node, file: string)
    requires WellNamed(node)
    ensures Receipts(path, name, node)[file] <= 1
    decreases node
  {
    if node.Directory? {
      EachReceiptOnceBelow(path, node, 0, file);
      assert node.entries[0..] == node.entries;
    }
  }

  lemma {:induction false} EachReceiptOnceBelow(path: string, node: Node, i: nat, file: string)
    requires node.Directory? && WellNamed(node) && i <= |node.entries|
    ensures ReceiptsAll(path, node.entries[i..])[file] <= 1
    decreases node, |node.entries| - i
  {
    if i < |node.entries| {
      var entry, later := node.entries[i], node.entries[i + 1..];
      assert node.entries[i..][1..] == later;
      EachReceiptOnce(Child(path, entry.name), entry.name, entry.node, file);
      EachReceiptOnceBelow(path, node, i + 1, file);
      if file in Receipts(Child(path, entry.name), entry.name, entry.node) && file in ReceiptsAll(path, later) {
        var k := EntryOfReceipt(path, later, file);
        ReceiptsAreUnder(Child(path, entry.name), entry.name, entry.node, file);
        ReceiptsAreUnder(Child(path, later[k].name), later[k].name, later[k].node, file);
        assert later[k] == node.entries[i + 1 + k];
        SiblingsDiffer(path, entry.name, later[k].name, file);
        assert false;
      }
    }
  }

  // Every answer for one tree is the same list, without repetition.
  lemma {:induction false} OneAnswer(path: string, root: Node, r: seq<string>, s: seq<string>)
    requires WellNamed(root) && IsAnswer(path, root, Some(r)) && IsAnswer(path, root, Some(s))
    ensures NoDuplicates(r) && r == s
  {
    forall file | file in multiset(r) ensures multiset(r)[file] == 1 {
      EachReceiptOnce(path, "", root, file);
    }
    MultisetDistinct(r);
    MultisetDistinct(s);
    SortedIsInTextOrder(r);
    SortedIsInTextOrder(s);
    SameListing(r, s);
  }

  lemma SameListing(r: seq<string>, s: seq<string>)
    requires SortedBy(StringLeq, r) && SortedBy(StringLeq, s) && NoDuplicates(r) && NoDuplicates(s)
    requires multiset(r) == multiset(s)
    ensures r == s
  {
    StringOrderIsTotal();
    StrictlySorted(r);
    StrictlySorted(s);
    forall x: string, y: string, z: string | StringLess(x, y) && StringLess(y, z) ensures StringLess(x, z) {
      if x == z {
        StringLeqAntisymmetric(x, y);
      }
    }
    forall x ensures x in r <==> x in s {
      assert x in multiset(r) <==> x in multiset(s);
    }
    StrictListingUnique(StringLess, r, s);
  }

  lemma StrictlySorted(s: seq<string>)
    requires SortedBy(StringLeq, s) && NoDuplicates(s)
    ensures SortedBy(StringLess, s)
  {
  }
}
