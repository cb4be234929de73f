/** The batch: every immediate subfolder of a parent directory assembled in
    sorted order, collecting the outputs of the folders that succeeded. */
module Batch {
  import opened Wrappers
  import opened Sequences
  import opened Text
  import opened Paths
  import opened Resolution
  import opened FolderAssembly

  datatype BatchOutcome =
    | ParentMissing      // returns `None`
    | ListingRaised      // listing the parent raises; nothing catches it
    | NoSubfolders       // returns `None`, not an empty mapping
    | Processed(visited: seq<string>, results: seq<(string, string)>)

  /** Python's truth test on the assembler's return value. */
  predicate Truthy(out: Option<string>) {
    out.Some? && out.value != ""
  }

  /** The entries of `parent` that are directories, joined to it, in listing
      order. */
  function Subfolders(fs: FileSystem, parent: string, entries: seq<string>): seq<string>
    decreases |entries|
  {
    if entries == [] then []
    else
      var path := Join(parent, entries[0]);
      (if path in fs.directories then [path] else []) + Subfolders(fs, parent, entries[1..])
  }

  /** The loop over the folders: a folder whose output is truthy adds the
      pair `(folder, output)`; any other folder adds nothing and the loop
      goes on. `outputOf` is what assembling one folder returns. */
  function Collect(folders: seq<string>, outputOf: string -> Option<string>): seq<(string, string)>
    decreases |folders|
  {
    if folders == [] then []
    else
      var out := outputOf(folders[0]);
      (if Truthy(out) then [(folders[0], out.value)] else []) + Collect(folders[1..], outputOf)
  }

  /** What the loop body returns for one folder. */
  function OutputOf(fs: FileSystem, target: Size): string -> Option<string> {
    folder => Output(AssembleFolder(fs, folder, target))
  }

  /** `procesar_ejecuciones`. */
  function ProcessBatch(fs: FileSystem, parent: string, target: Size): BatchOutcome {
    if parent !in fs.existing then ParentMissing
    else if parent !in fs.listings then ListingRaised
    else
      var folders := Subfolders(fs, parent, fs.listings[parent]);
      if |folders| == 0 then NoSubfolders
      else
        var visited := Sort(folders);
        Processed(visited, Collect(visited, OutputOf(fs, target)))
  }

  function KeysOf(results: seq<(string, string)>): seq<string> {
    seq(|results|, i requires 0 <= i < |results| => results[i].0)
  }

  /** The dictionary the pairs build: each assignment overrides an earlier
      one for the same key. */
  function AsDict(results: seq<(string, string)>): (m: map<string, string>)
    ensures forall k :: k in m <==> k in KeysOf(results)
    ensures forall k :: k in m ==> (k, m[k]) in results
    decreases |results|
  {
    if results == [] then map[]
    else
      var init := results[..|results| - 1];
      var last := results[|results| - 1];
      assert KeysOf(results) == KeysOf(init) + [last.0];
      assert forall p :: p in init ==> p in results;
      AsDict(init)[last.0 := last.1]
  }

  /** The value returned to the caller, where there is one. */
  function Returned(b: BatchOutcome): Option<map<string, string>>
    requires !b.ListingRaised?
  {
    if b.Processed? then Some(AsDict(b.results)) else None
  }

  // Properties of the batch.

  /** The output path of a folder is never empty, so Python's truth test on
      the assembler's result is the same as "a video was written". */
  lemma TruthyExactlyWhenWritten(fs: FileSystem, folder: string, target: Size)
    ensures Truthy(Output(AssembleFolder(fs, folder, target))) <==>
      AssembleFolder(fs, folder, target).Written?
  {
    var run := AssembleFolder(fs, folder, target);
    if run.Written? {
      WrittenExactly(fs, folder, target);
      var name := "video_" + Basename(folder) + ".mp4";
      assert name[0] == 'v';
      assert |Join(folder, name)| > 0;
    }
  }

  /** The keys the loop collects come from the visited folders, in visiting
      order. */
  lemma {:induction false} CollectKeepsOrder(folders: seq<string>, outputOf: string -> Option<string>)
    ensures Subsequence(KeysOf(Collect(folders, outputOf)), folders)
    decreases |folders|
  {
    if folders != [] {
      var rest := Collect(folders[1..], outputOf);
      CollectKeepsOrder(folders[1..], outputOf);
      var out := outputOf(folders[0]);
      if Truthy(out) {
        var results := [(folders[0], out.value)] + rest;
        assert results == Collect(folders, outputOf);
        assert KeysOf(results)[1..] == KeysOf(rest);
      } else {
        assert Collect(folders, outputOf) == rest;
      }
    }
  }

  /** Each collected pair holds a folder and that folder's output. */
  lemma {:induction false} CollectPairsOutputs(folders: seq<string>, outputOf: string -> Option<string>)
    ensures forall p :: p in Collect(folders, outputOf) ==> outputOf(p.0) == Some(p.1)
    decreases |folders|
  {
    if folders != [] {
      CollectPairsOutputs(folders[1..], outputOf);
    }
  }

  /** A folder is among the collected keys exactly when it was visited and
      its output is truthy. */
  lemma {:induction false} CollectKeysExactly(folders: seq<string>, outputOf: string -> Option<string>)
    ensures forall f :: f in KeysOf(Collect(folders, outputOf)) <==>
      f in folders && Truthy(outputOf(f))
    decreases |folders|
  {
    if folders != [] {
      var rest := Collect(folders[1..], outputOf);
      CollectKeysExactly(folders[1..], outputOf);
      assert folders == [folders[0]] + folders[1..];
      var out := outputOf(folders[0]);
      if Truthy(out) {
        var results := [(folders[0], out.value)] + rest;
        assert KeysOf(results) == [folders[0]] + KeysOf(rest);
      } else {
        assert Collect(folders, outputOf) == rest;
      }
    }
  }

  /** A missing parent gives `None`, and so does a parent without
      subdirectories, instead of an empty mapping. */
  lemma NothingToProcess(fs: FileSystem, parent: string, target: Size)
    ensures parent !in fs.existing ==> Returned(ProcessBatch(fs, parent, target)) == None
    ensures parent in fs.existing && parent in fs.listings &&
            Subfolders(fs, parent, fs.listings[parent]) == [] ==>
      Returned(ProcessBatch(fs, parent, target)) == None
  {
  }

  /** The parent exists, can be listed and has at least one subdirectory:
      exactly the case in which the batch runs its loop. */
  predicate HasSubfolders(fs: FileSystem, parent: string) {
    && parent in fs.existing
    && parent in fs.listings
    && Subfolders(fs, parent, fs.listings[parent]) != []
  }

  /** The batch result of a parent with subfolders: the subfolders are visited in
      sorted order, each once, and the mapping holds an entry for a folder
      exactly when a video was written for it, the entry being that video's
      path `video_<name>.mp4` inside the folder. */
  lemma BatchResults(fs: FileSystem, parent: string, target: Size)
    requires HasSubfolders(fs, parent)
    ensures ProcessBatch(fs, parent, target).Processed?
    ensures var b := ProcessBatch(fs, parent, target);
      var dict := AsDict(b.results);
      && Sorted(b.visited)
      && multiset(b.visited) == multiset(Subfolders(fs, parent, fs.listings[parent]))
      && (forall f :: f in dict <==> f in b.visited && AssembleFolder(fs, f, target).Written?)
      && (forall f :: f in dict ==> dict[f] == OutputPath(f))
  {
    var b := ProcessBatch(fs, parent, target);
    var folders := Subfolders(fs, parent, fs.listings[parent]);
    var visited := Sort(folders);
    SortPermutes(folders);
    assert b == Processed(visited, Collect(visited, OutputOf(fs, target)));
    CollectPairsOutputs(visited, OutputOf(fs, target));
    CollectKeysExactly(visited, OutputOf(fs, target));
    var dict := AsDict(b.results);
    forall f
      ensures f in dict <==> f in visited && AssembleFolder(fs, f, target).Written?
    {
      TruthyExactlyWhenWritten(fs, f, target);
    }
    forall f | f in dict
      ensures dict[f] == OutputPath(f)
    {
      assert (f, dict[f]) in b.results;
      WrittenExactly(fs, f, target);
    }
  }

  /** Every subfolder is a directory named by one of the parent's entries and
      joined to the parent; its basename is that entry. */
  lemma {:induction false} SubfoldersAreJoinedEntries(fs: FileSystem, parent: string, entries: seq<string>)
    requires forall i :: 0 <= i < |entries| ==> IsEntryName(entries[i])
    ensures forall x :: x in Subfolders(fs, parent, entries) ==>
      && x in fs.directories
      && Basename(x) in entries
      && x == JoinPrefix(parent) + Basename(x)
    decreases |entries|
  {
    if entries != [] {
      var path := Join(parent, entries[0]);
      SubfoldersAreJoinedEntries(fs, parent, entries[1..]);
      BasenameOfJoin(parent, entries[0]);
      assert entries[0][0] in entries[0];
      JoinRelative(parent, entries[0]);
      forall x | x in Subfolders(fs, parent, entries[1..])
        ensures Basename(x) in entries
      {
        assert Basename(x) in entries[1..];
      }
    }
  }

  /** The folders are visited in the order of their own names: sorting the
      joined paths sorts by the entry names, since all share the parent. */
  lemma VisitOrderFollowsNames(fs: FileSystem, parent: string, target: Size)
    requires WellFormed(fs)
    requires HasSubfolders(fs, parent)
    ensures var visited := ProcessBatch(fs, parent, target).visited;
      forall i, j :: 0 <= i < j < |visited| ==> Le(Basename(visited[i]), Basename(visited[j]))
  {
    BatchResults(fs, parent, target);
    var entries := fs.listings[parent];
    assert forall i :: 0 <= i < |entries| ==> IsEntryName(entries[i]);
    var folders := Subfolders(fs, parent, entries);
    var visited := ProcessBatch(fs, parent, target).visited;
    SubfoldersAreJoinedEntries(fs, parent, entries);
    forall i, j | 0 <= i < j < |visited|
      ensures Le(Basename(visited[i]), Basename(visited[j]))
    {
      assert visited[i] in multiset(folders) && visited[j] in multiset(folders);
      var prefix := JoinPrefix(parent);
      assert visited[i] == prefix + Basename(visited[i]);
      assert visited[j] == prefix + Basename(visited[j]);
      LeCommonPrefix(prefix, Basename(visited[i]), Basename(visited[j]));
    }
  }

  /** Subfolders listed as `b`, `a`, `c` are visited as `a`, `b`, `c`. */
  lemma VisitsInSortedOrder(parent: string)
    ensures Sort([Join(parent, "b"), Join(parent, "a"), Join(parent, "c")]) ==
            [Join(parent, "a"), Join(parent, "b"), Join(parent, "c")]
  {
    var prefix := JoinPrefix(parent);
    JoinRelative(parent, "a");
    JoinRelative(parent, "b");
    JoinRelative(parent, "c");
    LeCommonPrefix(prefix, "a", "b");
    LeCommonPrefix(prefix, "a", "c");
    LeCommonPrefix(prefix, "b", "c");
    var listed := [Join(parent, "b"), Join(parent, "a"), Join(parent, "c")];
    var expected := [Join(parent, "a"), Join(parent, "b"), Join(parent, "c")];
    assert Sorted(expected);
    assert multiset(expected) == multiset(listed);
    SortPermutes(listed);
    SortedPermutationUnique(Sort(listed), expected);
  }
}
