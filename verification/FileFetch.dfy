/** Fetching the files of a job (worker/executor.go:182-230). */
module FileFetches {
  import opened Prelude
  import opened JobConfig
  import opened JobParts

  // ----- Sorting paths -----

  /** Go's order on strings, byte by byte. */
  predicate AtMost(a: string, b: string) {
    a == "" || (b != "" && (a[0] < b[0] || (a[0] == b[0] && AtMost(a[1..], b[1..]))))
  }

  predicate Sorted(paths: seq<string>) {
    forall i, j :: 0 <= i < j < |paths| ==> AtMost(paths[i], paths[j])
  }

  lemma {:induction false} AtMostTotal(a: string, b: string)
    ensures AtMost(a, b) || AtMost(b, a)
    ensures AtMost(a, b) && AtMost(b, a) ==> a == b
  {
    if a != "" && b != "" && a[0] == b[0] {
      AtMostTotal(a[1..], b[1..]);
      assert a == [a[0]] + a[1..] && b == [b[0]] + b[1..];
    }
  }

  lemma {:induction false} AtMostTransitive(a: string, b: string, c: string)
    requires AtMost(a, b) && AtMost(b, c)
    ensures AtMost(a, c)
  {
    if a != "" && a[0] == b[0] && b[0] == c[0] {
      AtMostTransitive(a[1..], b[1..], c[1..]);
    }
  }

  /** sort.Strings, whatever its algorithm: see SortedOnce. */
  function SortStrings(paths: seq<string>): (sorted: seq<string>)
    ensures Sorted(sorted) && multiset(sorted) == multiset(paths)
  {
    if paths == [] then []
    else
      assert paths == paths[..|paths| - 1] + [paths[|paths| - 1]];
      Insert(SortStrings(paths[..|paths| - 1]), paths[|paths| - 1])
  }

  function Insert(paths: seq<string>, path: string): (sorted: seq<string>)
    requires Sorted(paths)
    ensures Sorted(sorted) && multiset(sorted) == multiset(paths) + multiset{path}
  {
    if paths == [] then [path]
    else if AtMost(path, paths[0]) then
      Ahead(paths, path);
      [path] + paths
    else
      var rest := Insert(paths[1..], path);
      Behind(paths, path, rest);
      [paths[0]] + rest
  }

  lemma Ahead(paths: seq<string>, path: string)
    requires paths != [] && Sorted(paths) && AtMost(path, paths[0])
    ensures Sorted([path] + paths)
  {
    forall j | 0 <= j < |paths| ensures AtMost(path, paths[j]) {
      if j > 0 {
        AtMostTransitive(path, paths[0], paths[j]);
      }
    }
  }

  lemma Behind(paths: seq<string>, path: string, rest: seq<string>)
    requires paths != [] && Sorted(paths) && !AtMost(path, paths[0])
    requires Sorted(rest) && multiset(rest) == multiset(paths[1..]) + multiset{path}
    ensures Sorted([paths[0]] + rest) && multiset([paths[0]] + rest) == multiset(paths) + multiset{path}
  {
    AtMostTotal(path, paths[0]);
    forall j | 0 <= j < |rest| ensures AtMost(paths[0], rest[j]) {
      assert rest[j] in multiset(rest);
      if rest[j] != path {
        assert rest[j] in multiset(paths[1..]);
        var k :| 0 <= k < |paths[1..]| && paths[1..][k] == rest[j];
        assert paths[k + 1] == rest[j];
      }
    }
    assert paths == [paths[0]] + paths[1..];
  }

  /** There is only one sorted arrangement of the same paths. */
  lemma {:induction false} SortedOnce(a: seq<string>, b: seq<string>)
    requires Sorted(a) && Sorted(b) && multiset(a) == multiset(b)
    ensures a == b
  {
    assert |multiset(a)| == |a| && |multiset(b)| == |b|;
    if a != [] {
      HeadIsLeast(a, b);
      HeadIsLeast(b, a);
      AtMostTotal(a[0], b[0]);
      TailsAgree(a, b);
      SortedOnce(a[1..], b[1..]);
      assert a == [a[0]] + a[1..] && b == [b[0]] + b[1..];
    }
  }

  lemma HeadIsLeast(a: seq<string>, b: seq<string>)
    requires a != [] && b != [] && Sorted(a) && multiset(a) == multiset(b)
    ensures AtMost(a[0], b[0])
  {
    assert b[0] in multiset(a);
    AtMostTotal(a[0], a[0]);
  }

  lemma TailsAgree(a: seq<string>, b: seq<string>)
    requires a != [] && b != [] && multiset(a) == multiset(b) && a[0] == b[0]
    ensures multiset(a[1..]) == multiset(b[1..])
  {
    assert a == [a[0]] + a[1..] && b == [b[0]] + b[1..];
    assert multiset(a[1..]) == multiset(a) - multiset{a[0]};
    assert multiset(b[1..]) == multiset(b) - multiset{b[0]};
  }

  // ----- Fetching -----

  datatype FetchError = NotFetched(path: string) | NotUnzipped(path: string)

  /** The remote files, as each fetch finds them, and the decompressor. */
  datatype Remote = Remote(fetch: (nat, string) -> Option<string>, unzip: string -> Option<string>)

  const RULE := "------------"

  /** The n-th fetch of the run. */
  function Contents(n: nat, path: string, compression: string, remote: Remote): Result<string, FetchError> {
    match remote.fetch(n, path)
    case None => Err(NotFetched(path))
    case Some(raw) =>
      if compression == "gzip" then
        match remote.unzip(raw)
        case None => Err(NotUnzipped(path))
        case Some(plain) => Ok(plain)
      else Ok(raw)
  }

  function Header(path: string): string {
    RULE + "\nFile: " + path + "\n" + RULE + "\n"
  }

  function Section(path: string, contents: string, several: bool): string {
    if several then Header(path) + contents else contents
  }

  /** The output over the first n of these paths. */
  function Assembled(paths: seq<string>, n: nat, compression: map<string, string>,
                     remote: Remote): Result<string, FetchError>
    requires n <= |paths| && forall i :: 0 <= i < |paths| ==> paths[i] in compression
  {
    if n == 0 then Ok("")
    else
      match Assembled(paths, n - 1, compression, remote)
      case Err(e) => Err(e)
      case Ok(before) =>
        match Contents(n - 1, paths[n - 1], compression[paths[n - 1]], remote)
        case Err(e) => Err(e)
        case Ok(contents) => Ok(before + (if n > 1 then "\n" else "") + Section(paths[n - 1], contents, |paths| > 1))
  }

  function Paths(entries: seq<FileEntry>): seq<string> {
    seq(|entries|, i requires 0 <= i < |entries| => entries[i].name)
  }

  /** The entry listed last for a path decides its compression. */
  function Compressions(entries: seq<FileEntry>): (c: map<string, string>)
    ensures forall path :: path in c <==> exists i :: 0 <= i < |entries| && entries[i].name == path
  {
    if entries == [] then map[]
    else
      var init, last := entries[..|entries| - 1], entries[|entries| - 1];
      assert forall i :: 0 <= i < |init| ==> init[i] == entries[i];
      Compressions(init)[last.name := last.compression]
  }

  /** The whole output for a file set. */
  function Fetched(entries: seq<FileEntry>, remote: Remote): Result<string, FetchError> {
    var paths := SortStrings(Paths(entries));
    SortedListed(entries);
    Assembled(paths, |paths|, Compressions(entries), remote)
  }

  lemma SortedListed(entries: seq<FileEntry>)
    ensures forall i :: 0 <= i < |SortStrings(Paths(entries))| ==>
            SortStrings(Paths(entries))[i] in Compressions(entries)
  {
    var paths := SortStrings(Paths(entries));
    forall i | 0 <= i < |paths| ensures paths[i] in Compressions(entries) {
      assert paths[i] in multiset(paths);
      assert paths[i] in Paths(entries);
      var j :| 0 <= j < |entries| && Paths(entries)[j] == paths[i];
      assert entries[j].name == paths[i];
    }
  }

  method Collect(entries: seq<FileEntry>) returns (paths: seq<string>, compression: map<string, string>)
    ensures paths == Paths(entries) && compression == Compressions(entries)
  {
    paths, compression := [], map[];
    var i := 0;
    while i < |entries|
      invariant i <= |entries| && paths == Paths(entries[..i]) && compression == Compressions(entries[..i])
    {
      assert entries[..i + 1][..i] == entries[..i];
      paths, compression := paths + [entries[i].name], compression[entries[i].name := entries[i].compression];
      i := i + 1;
    }
    assert entries[..i] == entries;
  }

  method FetchFile(entries: seq<FileEntry>, remote: Remote) returns (r: Result<string, FetchError>)
    ensures r == Fetched(entries, remote)
  {
    var paths, compression := Collect(entries);
    paths := SortStrings(paths);
    SortedListed(entries);
    var buf := "";
    var i := 0;
    while i < |paths|
      invariant i <= |paths| && Assembled(paths, i, compression, remote) == Ok(buf)
    {
      var bytes := Contents(i, paths[i], compression[paths[i]], remote);
      if bytes.Err? {
        AssembledStops(paths, i + 1, compression, remote);
        return bytes;
      }
      var text := if |paths| > 1 then Header(paths[i]) + bytes.value else bytes.value;
      AssembledStep(paths, i, compression, remote, buf, text);
      if i > 0 {
        text := "\n" + text;
      }
      buf := buf + text;
      i := i + 1;
    }
    return Ok(buf);
  }

  lemma AssembledStep(paths: seq<string>, i: nat, compression: map<string, string>, remote: Remote, buf: string,
                      text: string)
    requires i < |paths| && forall j :: 0 <= j < |paths| ==> paths[j] in compression
    requires Assembled(paths, i, compression, remote) == Ok(buf)
    requires Contents(i, paths[i], compression[paths[i]], remote).Ok?
    requires text == Section(paths[i], Contents(i, paths[i], compression[paths[i]], remote).value, |paths| > 1)
    ensures Assembled(paths, i + 1, compression, remote) == Ok(buf + if i > 0 then "\n" + text else text)
  {
    Assoc(buf, "\n", text);
    assert buf + "" == buf;
  }

  lemma {:induction false} AssembledStops(paths: seq<string>, n: nat, compression: map<string, string>, remote: Remote)
    requires n <= |paths| && forall i :: 0 <= i < |paths| ==> paths[i] in compression
    requires Assembled(paths, n, compression, remote).Err?
    ensures Assembled(paths, |paths|, compression, remote) == Assembled(paths, n, compression, remote)
    decreases |paths| - n
  {
    if n < |paths| {
      AssembledStops(paths, n + 1, compression, remote);
    }
  }

  /** Any error is an error for all, and there is one only if some fetch or decompression
      failed. */
  lemma {:induction false} SucceedsExactly(paths: seq<string>, n: nat, compression: map<string, string>, remote: Remote)
    requires n <= |paths| && forall i :: 0 <= i < |paths| ==> paths[i] in compression
    ensures Assembled(paths, n, compression, remote).Ok? <==> forall i :: 0 <= i < n ==>
            Contents(i, paths[i], compression[paths[i]], remote).Ok?
  {
    if n > 0 {
      SucceedsExactly(paths, n - 1, compression, remote);
    }
  }

  /** What the n-th fetch found at the path, decompressed where the entry says gzip. */
  predicate Plain(n: nat, path: string, compression: string, remote: Remote, plain: string) {
    && remote.fetch(n, path).Some?
    && if compression == "gzip" then remote.unzip(remote.fetch(n, path).value) == Some(plain)
       else remote.fetch(n, path).value == plain
  }

  /** Parts with a newline between any two. */
  function Joined(parts: seq<string>): string {
    if parts == [] then ""
    else if |parts| == 1 then parts[0]
    else Joined(parts[..|parts| - 1]) + "\n" + parts[|parts| - 1]
  }

  /** The part of the output for one file. */
  function Part(path: string, plain: string, several: bool): string {
    if several then "------------\nFile: " + path + "\n------------\n" + plain else plain
  }

  /** The output is the plain files in the order of the paths, a newline between any two, each
      under a header that names it exactly when there are several. */
  lemma {:induction false} FetchedText(paths: seq<string>, n: nat, compression: map<string, string>, remote: Remote)
      returns (plains: seq<string>)
    requires n <= |paths| && forall i :: 0 <= i < |paths| ==> paths[i] in compression
    requires Assembled(paths, n, compression, remote).Ok?
    ensures |plains| == n
    ensures forall i :: 0 <= i < n ==> Plain(i, paths[i], compression[paths[i]], remote, plains[i])
    ensures Assembled(paths, n, compression, remote) == Ok(Joined(Parts(paths[..n], plains, |paths| > 1)))
  {
    if n == 0 {
      plains := [];
    } else {
      var before := FetchedText(paths, n - 1, compression, remote);
      var plain := Contents(n - 1, paths[n - 1], compression[paths[n - 1]], remote).value;
      plains := before + [plain];
      assert Plain(n - 1, paths[n - 1], compression[paths[n - 1]], remote, plain);
      PartsSnoc(paths, n - 1, before, plain, |paths| > 1);
      SectionPart(paths[n - 1], plain, |paths| > 1);
      JoinedSnoc(Parts(paths[..n - 1], before, |paths| > 1), Part(paths[n - 1], plain, |paths| > 1));
    }
  }

  function Parts(paths: seq<string>, plains: seq<string>, several: bool): seq<string>
    requires |paths| == |plains|
  {
    seq(|paths|, i requires 0 <= i < |paths| => Part(paths[i], plains[i], several))
  }

  lemma PartsSnoc(paths: seq<string>, n: nat, plains: seq<string>, plain: string, several: bool)
    requires n < |paths| && |plains| == n
    ensures Parts(paths[..n + 1], plains + [plain], several)
            == Parts(paths[..n], plains, several) + [Part(paths[n], plain, several)]
  {
  }

  lemma JoinedSnoc(parts: seq<string>, part: string)
    ensures Joined(parts + [part]) == Joined(parts) + (if parts != [] then "\n" else "") + part
  {
    assert (parts + [part])[..|parts|] == parts;
  }

  lemma SectionPart(path: string, plain: string, several: bool)
    ensures Section(path, plain, several) == Part(path, plain, several)
  {
    HeaderText(path);
  }

  lemma HeaderText(path: string)
    ensures Header(path) == "------------\nFile: " + path + "\n------------\n"
  {
    assert RULE + "\nFile: " == "------------\nFile: ";
    Assoc(RULE + "\nFile: " + path, "\n", RULE);
    Assoc(RULE + "\nFile: " + path, "\n" + RULE, "\n");
    assert "\n" + RULE + "\n" == "\n------------\n";
  }

  /** An error is that of the first path that cannot be fetched or decompressed. */
  lemma {:induction false} FetchedError(paths: seq<string>, n: nat, compression: map<string, string>, remote: Remote)
      returns (k: nat)
    requires n <= |paths| && forall i :: 0 <= i < |paths| ==> paths[i] in compression
    requires Assembled(paths, n, compression, remote).Err?
    ensures k < n && forall i :: 0 <= i < k ==> Fetchable(i, paths[i], compression[paths[i]], remote)
    ensures Broken(k, paths[k], compression[paths[k]], remote, Assembled(paths, n, compression, remote).error)
  {
    if n == 0 {
      assert false;
    } else if Assembled(paths, n - 1, compression, remote).Err? {
      k := FetchedError(paths, n - 1, compression, remote);
    } else {
      k := n - 1;
      var plains := FetchedText(paths, n - 1, compression, remote);
      forall i | 0 <= i < k ensures Fetchable(i, paths[i], compression[paths[i]], remote) {
        assert Plain(i, paths[i], compression[paths[i]], remote, plains[i]);
      }
    }
  }

  ghost predicate Fetchable(n: nat, path: string, compression: string, remote: Remote) {
    exists plain :: Plain(n, path, compression, remote, plain)
  }

  /** The n-th fetch failed, or what it found is marked gzip and does not decompress. */
  predicate Broken(n: nat, path: string, compression: string, remote: Remote, error: FetchError) {
    match remote.fetch(n, path)
    case None => error == NotFetched(path)
    case Some(raw) => compression == "gzip" && remote.unzip(raw).None? && error == NotUnzipped(path)
  }

  /** Of the entries for a path, the last one decides. */
  lemma {:induction false} LastEntryDecides(entries: seq<FileEntry>, path: string) returns (i: nat)
    requires path in Compressions(entries)
    ensures i < |entries| && entries[i].name == path && Compressions(entries)[path] == entries[i].compression
    ensures forall j :: i < j < |entries| ==> entries[j].name != path
  {
    var init, last := entries[..|entries| - 1], entries[|entries| - 1];
    if last.name == path {
      i := |init|;
    } else {
      i := LastEntryDecides(init, path);
    }
  }

  // ----- Independence of Go's map order -----

  /** The view of a file set determines how often it lists a path. */
  lemma {:induction false} ViewCounts(entries: seq<FileEntry>, path: string)
    ensures multiset(Paths(entries))[path] == |Entries(View(entries), path)|
  {
    if entries != [] {
      var init, last := entries[..|entries| - 1], entries[|entries| - 1];
      ViewCounts(init, path);
      assert Paths(entries) == Paths(init) + [last.name];
      CountSnoc(Paths(init), last.name, path);
      if path != last.name {
        assert Entries(View(entries), path) == Entries(View(init), path);
      }
    }
  }

  /** And how each path is compressed. */
  lemma {:induction false} ViewCompresses(entries: seq<FileEntry>, path: string)
    ensures path in Compressions(entries) <==> path in View(entries)
    ensures path in View(entries) ==>
            View(entries)[path] != [] && Compressions(entries)[path] == View(entries)[path][|View(entries)[path]| - 1]
  {
    if entries != [] {
      ViewCompresses(entries[..|entries| - 1], path);
    }
  }

  lemma CountSnoc(paths: seq<string>, last: string, path: string)
    ensures multiset(paths + [last])[path] == multiset(paths)[path] + if path == last then 1 else 0
  {
  }

  /** Whatever orders Go ranged over the file maps in, the output is the same. */
  lemma OrderIrrelevant(a: seq<FileEntry>, b: seq<FileEntry>, remote: Remote)
    requires View(a) == View(b)
    ensures Fetched(a, remote) == Fetched(b, remote)
  {
    forall path
      ensures multiset(Paths(a))[path] == multiset(Paths(b))[path]
              && (path in Compressions(a) <==> path in Compressions(b))
    {
      ViewCounts(a, path);
      ViewCounts(b, path);
      ViewCompresses(a, path);
      ViewCompresses(b, path);
    }
    assert multiset(Paths(a)) == multiset(Paths(b));
    SortedOnce(SortStrings(Paths(a)), SortStrings(Paths(b)));
    forall path | path in Compressions(a) ensures Compressions(a)[path] == Compressions(b)[path] {
      ViewCompresses(a, path);
      ViewCompresses(b, path);
    }
    assert Compressions(a) == Compressions(b);
  }

  /** The entries that ranging over the configured files in this order appends. */
  function Listing(order: seq<string>, files: map<string, string>): seq<FileEntry>
    requires forall path :: path in order ==> path in files
  {
    seq(|order|, i requires 0 <= i < |order| => FileEntry(order[i], files[order[i]]))
  }

  lemma {:induction false} ListingView(before: seq<FileEntry>, order: seq<string>, files: map<string, string>)
    requires IsOrder(order, files.Keys)
    ensures View(before + Listing(order, files)) == AddFiles(View(before), files)
    decreases |order|
  {
    if order == [] {
      assert files.Keys == {};
      assert before + Listing(order, files) == before;
      AddNoFiles(View(before), files);
    } else {
      var init, last := order[..|order| - 1], order[|order| - 1];
      var fewer := files - {last};
      OrderInit(order, files.Keys);
      ListingView(before, init, fewer);
      ListingInit(before, order, files);
      ViewSnoc(before + Listing(init, fewer), FileEntry(last, files[last]));
      AddLast(View(before), files, last);
    }
  }

  lemma ListingInit(before: seq<FileEntry>, order: seq<string>, files: map<string, string>)
    requires order != [] && IsOrder(order, files.Keys)
    requires IsOrder(order[..|order| - 1], (files - {order[|order| - 1]}).Keys)
    ensures var init, last := order[..|order| - 1], order[|order| - 1];
            before + Listing(order, files) == (before + Listing(init, files - {last})) + [FileEntry(last, files[last])]
  {
  }

  lemma AddLast(start: Files, files: map<string, string>, last: string)
    requires last in files
    ensures var before := AddFiles(start, files - {last});
            AddFiles(start, files) == before[last := Entries(before, last) + [files[last]]]
  {
    AddOneFile(start, files, {last}, last);
    assert files - ({last} - {last}) == files;
  }

  lemma OrderInit(order: seq<string>, keys: set<string>)
    requires IsOrder(order, keys) && order != []
    ensures IsOrder(order[..|order| - 1], keys - {order[|order| - 1]})
  {
    var init, last := order[..|order| - 1], order[|order| - 1];
    forall key | key in keys && key != last ensures key in init {
      var i :| 0 <= i < |order| && order[i] == key;
      assert init[i] == key;
    }
  }

  /** The entries of a chain of layers, each ranged over in an order of its own. */
  ghost function Listings(confs: seq<JobConf>, orders: seq<seq<string>>): seq<FileEntry>
    requires Orders(confs, orders)
  {
    if confs == [] then []
    else
      var last := |confs| - 1;
      Listings(confs[..last], orders[..last]) + Listing(orders[last], confs[last].files)
  }

  ghost predicate Orders(confs: seq<JobConf>, orders: seq<seq<string>>) {
    |orders| == |confs| && forall k :: 0 <= k < |confs| ==> IsOrder(orders[k], confs[k].files.Keys)
  }

  lemma {:induction false} ListingsView(confs: seq<JobConf>, orders: seq<seq<string>>)
    requires Orders(confs, orders)
    ensures View(Listings(confs, orders)) == ListedFiles(confs)
  {
    if confs != [] {
      var last := |confs| - 1;
      ListingsView(confs[..last], orders[..last]);
      ListingView(Listings(confs[..last], orders[..last]), orders[last], confs[last].files);
    }
  }

  /** Whatever order each layer's files are ranged over in, what is fetched is the same. */
  lemma MapOrderIrrelevant(confs: seq<JobConf>, orders: seq<seq<string>>, others: seq<seq<string>>, remote: Remote)
    requires Orders(confs, orders) && Orders(confs, others)
    ensures Fetched(Listings(confs, orders), remote) == Fetched(Listings(confs, others), remote)
  {
    ListingsView(confs, orders);
    ListingsView(confs, others);
    OrderIrrelevant(Listings(confs, orders), Listings(confs, others), remote);
  }
}
