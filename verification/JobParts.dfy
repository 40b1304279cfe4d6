/** The other parts of a job: its file set, scrubbers and template values
    (model/file_set.go:9-44, model/job.go:136-163). */
module JobParts {
  import opened Prelude
  import opened Replacement
  import opened JobConfig
  import opened JobTemplates
  import opened Templates

  /** An entry of a file set; never changed once listed. */
  datatype FileEntry = FileEntry(name: string, compression: string)

  function View(entries: seq<FileEntry>): Files {
    if entries == [] then NO_FILES
    else
      var before, last := View(entries[..|entries| - 1]), entries[|entries| - 1];
      before[last.name := Entries(before, last.name) + [last.compression]]
  }

  class FileSet {
    var files: seq<FileEntry>

    constructor (files: seq<FileEntry>)
      ensures this.files == files
    {
      this.files := files;
    }

    /** Appends an entry for each configured file, in any order of the map. */
    method ApplyConfig(conf: JobConf)
      modifies this
      ensures View(files) == ApplyFiles(View(old(files)), conf)
      ensures old(files) <= files && |files| == |old(files)| + |conf.files|
      ensures forall name :: name in conf.files ==> FileEntry(name, conf.files[name]) in files[|old(files)|..]
    {
      ghost var was, added: seq<FileEntry> := files, [];
      var left := conf.files.Keys;
      ghost var start := View(files);
      AddNoFiles(start, conf.files - left);
      while left != {}
        invariant left <= conf.files.Keys && View(files) == AddFiles(start, conf.files - left)
        invariant files == was + added && |added| + |left| == |conf.files.Keys|
        invariant forall name :: name in conf.files && name !in left ==> FileEntry(name, conf.files[name]) in added
        decreases left
      {
        var name :| name in left;
        ViewSnoc(files, FileEntry(name, conf.files[name]));
        AddOneFile(start, conf.files, left, name);
        Assoc(was, added, [FileEntry(name, conf.files[name])]);
        files, added := files + [FileEntry(name, conf.files[name])], added + [FileEntry(name, conf.files[name])];
        left := left - {name};
      }
      assert conf.files - {} == conf.files;
    }

    method Validate() returns (ok: bool)
      ensures ok == ValidFiles(View(files))
      ensures ok <==> && files != []
                      && forall i :: 0 <= i < |files| ==>
                           files[i].name != "" && (files[i].compression == "" || files[i].compression == "gzip")
    {
      ok := |files| != 0;
      var i := 0;
      while i < |files|
        invariant i <= |files|
        invariant ok == (|files| != 0 && forall j :: 0 <= j < i ==> ValidEntry(files[j]))
      {
        ok := ok && ValidEntry(files[i]);
        i := i + 1;
      }
      EntriesValid(files);
    }

    method DeepCopy() returns (c: FileSet)
      ensures fresh(c) && c.files == files
    {
      c := new FileSet(files);
    }
  }

  predicate ValidEntry(entry: FileEntry) {
    entry.name != "" && (entry.compression == "" || entry.compression == "gzip")
  }

  /** The view is valid exactly when the entries are. */
  lemma {:induction false} EntriesValid(entries: seq<FileEntry>)
    ensures View(entries) == map[] <==> entries == []
    ensures ValidPaths(View(entries)) <==> forall i :: 0 <= i < |entries| ==> ValidEntry(entries[i])
  {
    if entries != [] {
      var init, last := entries[..|entries| - 1], entries[|entries| - 1];
      EntriesValid(init);
      PathAdded(View(init), last);
      assert forall i :: 0 <= i < |init| ==> init[i] == entries[i];
      assert entries == init + [last];
    }
  }

  lemma PathAdded(files: Files, last: FileEntry)
    ensures ValidPaths(files[last.name := Entries(files, last.name) + [last.compression]])
            <==> ValidPaths(files) && ValidEntry(last)
  {
    var before, after := Entries(files, last.name), files[last.name := Entries(files, last.name) + [last.compression]];
    assert after[last.name][|before|] == last.compression;
    assert forall i :: 0 <= i < |before| ==> after[last.name][i] == before[i];
    if ValidPaths(after) {
      forall path | path in files ensures ValidPath(path, files[path]) {
        assert ValidPath(path, after[path]);
      }
      assert ValidPath(last.name, after[last.name]);
    } else if ValidPaths(files) && ValidEntry(last) {
      forall path | path in after ensures ValidPath(path, after[path]) {
        assert path in files ==> ValidPath(path, files[path]);
      }
    }
  }

  lemma ViewSnoc(entries: seq<FileEntry>, last: FileEntry)
    ensures View(entries + [last]) == View(entries)[last.name := Entries(View(entries), last.name) + [last.compression]]
  {
    assert (entries + [last])[..|entries|] == entries;
  }

  lemma AddNoFiles(start: Files, added: map<string, string>)
    requires added == map[]
    ensures AddFiles(start, added) == start
  {
    forall path | path in start.Keys ensures AddFiles(start, added)[path] == start[path] {
      assert start[path] + [] == start[path];
    }
  }

  lemma AddOneFile(start: Files, files: map<string, string>, left: set<string>, name: string)
    requires left <= files.Keys && name in left
    ensures var before := AddFiles(start, files - left);
            AddFiles(start, files - (left - {name})) == before[name := Entries(before, name) + [files[name]]]
  {
    EntriesAdded(start, files - left, name);
    var before, after := AddFiles(start, files - left), AddFiles(start, files - (left - {name}));
    forall path | path in after.Keys
      ensures path != name ==> path in before && after[path] == before[path]
      ensures path == name ==> after[path] == Entries(before, name) + [files[name]]
    {
      EntriesAdded(start, files - (left - {name}), path);
      EntriesAdded(start, files - left, path);
    }
  }

  lemma EntriesAdded(start: Files, added: map<string, string>, path: string)
    ensures Entries(AddFiles(start, added), path) == Entries(start, path) + if path in added then [added[path]] else []
  {
  }

  class JobScrubber {
    const kind: string
    var search: string
    var replace: string

    function Value(): Scrubber
      reads this
    {
      Scrubber(kind, search, replace)
    }

    constructor (v: Scrubber)
      ensures Value() == v
    {
      kind, search, replace := v.kind, v.search, v.replace;
    }

    method ReplaceKey(key: string, text: string)
      modifies this
      ensures Value() == ReplaceInScrubber(old(Value()), key, text)
      ensures search == Replace(old(search), "{{" + key + "}}", text)
      ensures replace == Replace(old(replace), "{{" + key + "}}", text)
    {
      search := Replace(search, Placeholder(key), text);
      replace := Replace(replace, Placeholder(key), text);
    }
  }

  /** A Go map value: shared by whoever holds it. */
  class StringMap {
    var entries: map<string, string>

    constructor ()
      ensures entries == map[]
    {
      entries := map[];
    }

    /** Each entry of the other map is put in, in any order of it. */
    method PutAll(other: map<string, string>)
      modifies this
      ensures entries == old(entries) + other
    {
      var left := other.Keys;
      while left != {}
        invariant left <= other.Keys && entries == old(entries) + (other - left)
        decreases left
      {
        var key :| key in left;
        entries := entries[key := other[key]];
        left := left - {key};
      }
      assert other - {} == other;
    }
  }
}
