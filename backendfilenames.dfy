/**
 * The default file-name provider of the rotating writer (`DefaultFileNameProvider`):
 * pure queries over a snapshot of the storage directory. Names that do not decode,
 * or whose date string does not parse, are not log files and are skipped everywhere.
 */
module BackendFileNames {
  import opened Options
  import opened Seqs
  import opened LogNameCodec
  import Dates

  /** What resolving and listing the storage directory gave. */
  datatype Storage = Unresolved | Unlistable | Listed(names: seq<string>)

  /** The directory's names; an unresolved or unlistable directory lists nothing. */
  function Listing(st: Storage): seq<string> {
    if st.Listed? then st.names else []
  }

  /** A listed name together with its decoded identity and parsed date. */
  datatype LogFile = LogFile(name: string, id: LogName, date: Dates.Day)

  /** The log file a name denotes, or `None` for a foreign name. */
  function Classify(name: string): (r: Option<LogFile>)
    ensures r.Some? <==> Decode(name).Some? && Dates.ParseDay(Decode(name).value.dateString).Some?
    ensures r.Some? ==> r.value.name == name && Decode(name) == Some(r.value.id)
    ensures r.Some? ==> Dates.ParseDay(r.value.id.dateString) == Some(r.value.date)
  {
    match Decode(name)
    case None => None
    case Some(id) =>
      match Dates.ParseDay(id.dateString)
      case None => None
      case Some(d) => Some(LogFile(name, id, d))
  }

  /** The `compactMap` step: the log files among `names`, in listing order. */
  function LogFiles(names: seq<string>): (r: seq<LogFile>)
    ensures |r| <= |names|
  {
    if names == [] then []
    else (match Classify(names[0]) case Some(f) => [f] case None => []) + LogFiles(names[1..])
  }

  /** The log files kept are exactly those the listed names denote, each with its own name. */
  lemma {:induction false} LogFilesSpec(names: seq<string>)
    ensures var r := LogFiles(names);
      && (forall i | 0 <= i < |r| :: r[i].name in names && Classify(r[i].name) == Some(r[i]))
      && (forall i | 0 <= i < |names| && Classify(names[i]).Some? :: Classify(names[i]).value in r)
  {
    if names != [] {
      LogFilesSpec(names[1..]);
      var head := match Classify(names[0]) case Some(f) => [f] case None => [];
      var r := LogFiles(names);
      assert r == head + LogFiles(names[1..]);
      forall i | 0 <= i < |names| && Classify(names[i]).Some? ensures Classify(names[i]).value in r {
        if i > 0 {
          assert names[i] == names[1..][i - 1];
        }
      }
    }
  }

  datatype Order = ByIndex | ByDate

  function Key(f: LogFile, o: Order): nat {
    match o
    case ByIndex => f.id.index
    case ByDate => f.date
  }

  predicate SortedBy(s: seq<LogFile>, o: Order) {
    forall i, j | 0 <= i < j < |s| :: Key(s[i], o) <= Key(s[j], o)
  }

  function Insert(f: LogFile, s: seq<LogFile>, o: Order): (r: seq<LogFile>)
    requires SortedBy(s, o)
    ensures SortedBy(r, o)
    ensures forall i | 0 <= i < |r| :: r[i] == f || r[i] in s
    ensures multiset(r) == multiset(s) + multiset{f}
  {
    if s == [] then [f]
    else if Key(f, o) <= Key(s[0], o) then
      ConsSorted(f, s, o);
      [f] + s
    else
      var rest := Insert(f, s[1..], o);
      InsertedBehindHead(f, s, rest, o);
      [s[0]] + rest
  }

  /** Keeping the head of `s` in front of `f` inserted into the tail of `s` inserts `f` into `s`. */
  lemma InsertedBehindHead(f: LogFile, s: seq<LogFile>, rest: seq<LogFile>, o: Order)
    requires s != [] && SortedBy(s, o) && Key(s[0], o) < Key(f, o)
    requires SortedBy(rest, o)
    requires forall i | 0 <= i < |rest| :: rest[i] == f || rest[i] in s[1..]
    requires multiset(rest) == multiset(s[1..]) + multiset{f}
    ensures SortedBy([s[0]] + rest, o)
    ensures forall i | 0 <= i < |rest| + 1 :: ([s[0]] + rest)[i] == f || ([s[0]] + rest)[i] in s
    ensures multiset([s[0]] + rest) == multiset(s) + multiset{f}
  {
    HeadIsLowerBound(f, s, rest, o);
    ConsSorted(s[0], rest, o);
    assert s == [s[0]] + s[1..];
  }

  lemma HeadIsLowerBound(f: LogFile, s: seq<LogFile>, rest: seq<LogFile>, o: Order)
    requires s != [] && SortedBy(s, o) && Key(s[0], o) < Key(f, o)
    requires forall i | 0 <= i < |rest| :: rest[i] == f || rest[i] in s[1..]
    ensures forall i | 0 <= i < |rest| :: Key(s[0], o) <= Key(rest[i], o)
  {
    forall i | 0 <= i < |rest| ensures Key(s[0], o) <= Key(rest[i], o) {
      if rest[i] != f {
        var j :| 0 <= j < |s[1..]| && s[1..][j] == rest[i];
        assert s[j + 1] == rest[i];
      }
    }
  }

  lemma ConsSorted(x: LogFile, s: seq<LogFile>, o: Order)
    requires SortedBy(s, o)
    requires forall i | 0 <= i < |s| :: Key(x, o) <= Key(s[i], o)
    ensures SortedBy([x] + s, o)
  {
    var r := [x] + s;
    forall i, j | 0 <= i < j < |r| ensures Key(r[i], o) <= Key(r[j], o) {
      assert r[j] == s[j - 1];
      if i > 0 {
        assert r[i] == s[i - 1];
      }
    }
  }

  /** The `sorted(by:)` step: ascending by the key, a permutation of the input. */
  function SortBy(s: seq<LogFile>, o: Order): (r: seq<LogFile>)
    ensures SortedBy(r, o)
    ensures multiset(r) == multiset(s)
    ensures |r| == |s|
  {
    if s == [] then []
    else
      assert s == [s[0]] + s[1..];
      Insert(s[0], SortBy(s[1..], o), o)
  }

  /** The `map { $0.url }` step. */
  function Names(fs: seq<LogFile>): (r: seq<string>)
    ensures |r| == |fs|
    ensures forall i | 0 <= i < |fs| :: r[i] == fs[i].name
  {
    seq(|fs|, i requires 0 <= i < |fs| => fs[i].name)
  }

  /** A permutation has the same members. */
  lemma SameMembers(a: seq<LogFile>, b: seq<LogFile>)
    requires multiset(a) == multiset(b)
    ensures forall f :: f in a <==> f in b
  {
    forall f ensures f in a <==> f in b {
      assert f in a <==> f in multiset(a);
      assert f in b <==> f in multiset(b);
    }
  }

  /** A name is among `Names(fs)` exactly when some file of `fs` carries it. */
  lemma InNames(fs: seq<LogFile>, n: string)
    ensures n in Names(fs) <==> exists f | f in fs :: f.name == n
  {
    if n in Names(fs) {
      var i :| 0 <= i < |fs| && Names(fs)[i] == n;
      assert fs[i] in fs;
    }
    if exists f | f in fs :: f.name == n {
      var f :| f in fs && f.name == n;
      var i :| 0 <= i < |fs| && fs[i] == f;
      assert Names(fs)[i] == n;
    }
  }

  /** The names of the log files among `names` are those of `names` that classify. */
  lemma LogFileNames(names: seq<string>, n: string)
    ensures (exists f | f in LogFiles(names) :: f.name == n) <==> n in names && Classify(n).Some?
  {
    LogFilesSpec(names);
    if n in names && Classify(n).Some? {
      var k :| 0 <= k < |names| && names[k] == n;
      assert Classify(n).value in LogFiles(names);
    }
  }

  /** Every file of a sorted listing is a listed log file that its own name denotes. */
  lemma OrderedFiles(names: seq<string>, o: Order)
    ensures forall i | 0 <= i < |SortBy(LogFiles(names), o)| ::
      SortBy(LogFiles(names), o)[i].name in names && Classify(SortBy(LogFiles(names), o)[i].name) == Some(SortBy(LogFiles(names), o)[i])
  {
    var fs := LogFiles(names);
    var sorted := SortBy(fs, o);
    LogFilesSpec(names);
    SameMembers(sorted, fs);
    forall i | 0 <= i < |sorted| ensures sorted[i].name in names && Classify(sorted[i].name) == Some(sorted[i]) {
      assert sorted[i] in fs;
    }
  }

  /**
   * The names of a sorted listing: exactly the names in `names` that classify, the
   * i-th denoting the i-th sorted file.
   */
  lemma SortedNames(names: seq<string>, o: Order)
    ensures var sorted := SortBy(LogFiles(names), o);
      var urls := Names(sorted);
      && (forall n :: n in urls <==> n in names && Classify(n).Some?)
      && (forall i | 0 <= i < |urls| :: Classify(urls[i]) == Some(sorted[i]))
  {
    var fs := LogFiles(names);
    var sorted := SortBy(fs, o);
    var urls := Names(sorted);
    OrderedFiles(names, o);
    SameMembers(sorted, fs);
    forall n ensures n in urls <==> n in names && Classify(n).Some? {
      InNames(sorted, n);
      LogFileNames(names, n);
    }
  }

  /** A listing without repetitions lists each log file once. */
  lemma {:induction false} LogFilesDistinct(names: seq<string>)
    requires Distinct(names)
    ensures Distinct(LogFiles(names))
  {
    if names != [] {
      LogFilesDistinct(names[1..]);
      LogFilesSpec(names[1..]);
      var rest := LogFiles(names[1..]);
      assert names[0] !in names[1..];
      forall i | 0 <= i < |rest| ensures rest[i].name != names[0] {
        assert rest[i].name in names[1..];
      }
    }
  }

  /** Sorting the log files of a listing without repetitions names each file once. */
  lemma SortedNamesDistinct(names: seq<string>, o: Order)
    requires Distinct(names)
    ensures Distinct(Names(SortBy(LogFiles(names), o)))
  {
    var fs := LogFiles(names);
    var sorted := SortBy(fs, o);
    LogFilesDistinct(names);
    forall f | f in sorted ensures multiset(sorted)[f] <= 1 {
      DistinctCount(fs, f);
    }
    CountDistinct(sorted);
    OrderedFiles(names, o);
    var urls := Names(sorted);
    forall i, j | 0 <= i < j < |urls| ensures urls[i] != urls[j] {
      assert Classify(urls[i]) == Some(sorted[i]);
    }
  }

  /** The listed log files in index order. */
  function IndexOrder(st: Storage): (r: seq<LogFile>)
    ensures SortedBy(r, ByIndex)
  {
    SortBy(LogFiles(Listing(st)), ByIndex)
  }

  /** The listed log files in date order. */
  function DateOrder(st: Storage): (r: seq<LogFile>)
    ensures SortedBy(r, ByDate)
  {
    SortBy(LogFiles(Listing(st)), ByDate)
  }

  /** `urlsOfLogFilesSortedByIndex`: the names of the listed log files in index order. */
  function UrlsSortedByIndex(st: Storage): (urls: seq<string>)
    ensures |urls| <= |Listing(st)|
  {
    Names(IndexOrder(st))
  }

  /**
   * `urlsOfLogFilesSortedByIndex` holds exactly the listed log files, each once when
   * the listing has no repetitions, ascending by index.
   */
  lemma UrlsSortedByIndexSpec(st: Storage)
    ensures var urls := UrlsSortedByIndex(st);
      && (forall n :: n in urls <==> n in Listing(st) && Classify(n).Some?)
      && (Distinct(Listing(st)) ==> Distinct(urls))
      && (forall i | 0 <= i < |urls| :: Classify(urls[i]) == Some(IndexOrder(st)[i]))
      && (forall i, j | 0 <= i < j < |urls| :: Classify(urls[i]).value.id.index <= Classify(urls[j]).value.id.index)
  {
    SortedNames(Listing(st), ByIndex);
    IsIndexListing(st);
    ListingAscends(UrlsSortedByIndex(st), IndexOrder(st), Listing(st));
    if Distinct(Listing(st)) {
      SortedNamesDistinct(Listing(st), ByIndex);
    }
  }

  /** `urlsOfLogFilesSortedByDate`: the names of the listed log files in date order. */
  function UrlsSortedByDate(st: Storage): (urls: seq<string>)
    ensures |urls| <= |Listing(st)|
  {
    Names(DateOrder(st))
  }

  /** `urlsOfLogFilesSortedByDate` holds exactly the listed log files, ascending by the date in their names. */
  lemma UrlsSortedByDateSpec(st: Storage)
    ensures var urls := UrlsSortedByDate(st);
      && (forall n :: n in urls <==> n in Listing(st) && Classify(n).Some?)
      && (forall i | 0 <= i < |urls| :: Classify(urls[i]) == Some(DateOrder(st)[i]))
      && (forall i, j | 0 <= i < j < |urls| :: Classify(urls[i]).value.date <= Classify(urls[j]).value.date)
  {
    SortedNames(Listing(st), ByDate);
    var urls := UrlsSortedByDate(st);
    var order := DateOrder(st);
    forall i, j | 0 <= i < j < |urls| ensures Classify(urls[i]).value.date <= Classify(urls[j]).value.date {
      assert Key(order[i], ByDate) <= Key(order[j], ByDate);
    }
  }

  /** `getCurrentIndex()`: the last name in index order, decoded again; 0 when there is none. */
  function CurrentIndex(st: Storage): nat {
    var urls := UrlsSortedByIndex(st);
    if urls == [] then 0
    else
      match Decode(urls[|urls| - 1])
      case Some(n) => n.index
      case None => 0
  }

  /**
   * A listing in index order: the i-th name is listed and denotes the i-th file, and
   * the files ascend by index.
   */
  predicate IndexListing(urls: seq<string>, order: seq<LogFile>, names: seq<string>) {
    && |urls| == |order|
    && SortedBy(order, ByIndex)
    && (forall i | 0 <= i < |urls| :: urls[i] in names && Classify(urls[i]) == Some(order[i]))
  }

  /** `urlsOfLogFilesSortedByIndex` lists the directory in index order. */
  lemma IsIndexListing(st: Storage)
    ensures IndexListing(UrlsSortedByIndex(st), IndexOrder(st), Listing(st))
  {
    OrderedFiles(Listing(st), ByIndex);
  }

  /** Along a listing in index order, every name is a log file and the indexes ascend. */
  lemma ListingAscends(urls: seq<string>, order: seq<LogFile>, names: seq<string>)
    requires IndexListing(urls, order, names)
    ensures forall i, j | 0 <= i < j < |urls| ::
      Classify(urls[i]).Some? && Classify(urls[j]).Some? &&
      Classify(urls[i]).value.id.index <= Classify(urls[j]).value.id.index
  {
    forall i, j | 0 <= i < j < |urls|
      ensures Classify(urls[i]).Some? && Classify(urls[j]).Some? &&
        Classify(urls[i]).value.id.index <= Classify(urls[j]).value.id.index
    {
      assert Key(order[i], ByIndex) <= Key(order[j], ByIndex);
    }
  }

  /** The last file of a listing in index order has the largest index. */
  lemma LastIsMax(urls: seq<string>, order: seq<LogFile>, names: seq<string>)
    requires IndexListing(urls, order, names) && urls != []
    ensures forall n | n in urls ::
      Classify(n).Some? && Classify(n).value.id.index <= Classify(urls[|urls| - 1]).value.id.index
  {
    var last := |order| - 1;
    forall n | n in urls ensures Classify(n).Some? && Classify(n).value.id.index <= Classify(urls[last]).value.id.index {
      var i :| 0 <= i < |urls| && urls[i] == n;
      if i < last {
        assert Key(order[i], ByIndex) <= Key(order[last], ByIndex);
      }
    }
  }

  /** The last name in index order is a listed log file carrying the current index. */
  lemma LastIsCurrent(st: Storage)
    requires UrlsSortedByIndex(st) != []
    ensures var urls := UrlsSortedByIndex(st);
      var p := urls[|urls| - 1];
      p in Listing(st) && Classify(p).Some? && Classify(p).value.id.index == CurrentIndex(st)
  {
    var urls := UrlsSortedByIndex(st);
    UrlsSortedByIndexSpec(st);
    assert urls[|urls| - 1] in urls;
  }

  /** No listed log file has an index above the current index. */
  lemma ListedBelowCurrent(st: Storage)
    ensures forall n | n in Listing(st) && Classify(n).Some? :: Classify(n).value.id.index <= CurrentIndex(st)
  {
    var urls := UrlsSortedByIndex(st);
    SortedNames(Listing(st), ByIndex);
    if urls != [] {
      IsIndexListing(st);
      LastIsCurrent(st);
      LastIsMax(urls, IndexOrder(st), Listing(st));
    }
  }

  /** The current index is the largest index among the listed log files, or 0 when there is none. */
  lemma CurrentIndexIsMax(st: Storage)
    ensures forall n | n in Listing(st) && Classify(n).Some? :: Classify(n).value.id.index <= CurrentIndex(st)
    ensures (forall n | n in Listing(st) :: Classify(n).None?) ==> CurrentIndex(st) == 0
    ensures (exists n | n in Listing(st) :: Classify(n).Some?) ==>
      exists n | n in Listing(st) && Classify(n).Some? :: Classify(n).value.id.index == CurrentIndex(st)
  {
    ListedBelowCurrent(st);
    var urls := UrlsSortedByIndex(st);
    if urls != [] {
      LastIsCurrent(st);
    } else {
      UrlsSortedByIndexSpec(st);
    }
  }

  /** The index of a log file, as a sort key. */
  function FileIndex(f: LogFile): int {
    f.id.index
  }

  /**
   * In a listing in index order without repetitions, a name whose index is above
   * every other listed name's comes last, and only there.
   */
  lemma NewestOfListingIsLast(urls: seq<string>, order: seq<LogFile>, names: seq<string>, p: string)
    requires IndexListing(urls, order, names) && Distinct(urls)
    requires p in urls
    requires forall n | n in urls && n != p :: Classify(n).value.id.index < Classify(p).value.id.index
    ensures urls[|urls| - 1] == p && p !in urls[..|urls| - 1]
  {
    var k :| 0 <= k < |urls| && urls[k] == p;
    var f := order[k];
    forall i, j | 0 <= i < j < |order| ensures order[i] != order[j] {
      assert urls[i] != urls[j];
    }
    forall g | g in order && g != f ensures FileIndex(g) < FileIndex(f) {
      var i :| 0 <= i < |order| && order[i] == g;
      assert urls[i] != p;
    }
    assert forall i, j | 0 <= i < j < |order| :: FileIndex(order[i]) <= FileIndex(order[j]) by {
      assert SortedBy(order, ByIndex);
    }
    MaxIsLast(order, FileIndex, f);
    var last := |urls| - 1;
    forall i | 0 <= i < last ensures urls[i] != p {
      assert order[i] in order[..last];
    }
  }

  /**
   * In a listing without repetitions, a log file whose index is above every other
   * listed log file's comes last in index order, and only there.
   */
  lemma NewestIsLast(st: Storage, p: string)
    requires Distinct(Listing(st))
    requires p in Listing(st) && Classify(p).Some?
    requires forall n | n in Listing(st) && Classify(n).Some? && n != p ::
      Classify(n).value.id.index < Classify(p).value.id.index
    ensures var urls := UrlsSortedByIndex(st);
      urls != [] && urls[|urls| - 1] == p && p !in urls[..|urls| - 1]
  {
    UrlsSortedByIndexSpec(st);
    IsIndexListing(st);
    NewestOfListingIsLast(UrlsSortedByIndex(st), IndexOrder(st), Listing(st), p);
  }

  /** `createLogFileName(with:)`: the next index after the current one, with the day's date string. */
  function CreateLogFileName(st: Storage, day: Dates.Day): string {
    Encode(LogName(CurrentIndex(st) + 1, Dates.FormatDay(day)))
  }

  /** `nextLogUrl()`: none when the storage directory cannot be resolved. */
  function NextLogUrl(st: Storage, day: Dates.Day): Option<string> {
    if st.Unresolved? then None else Some(CreateLogFileName(st, day))
  }

  /**
   * The next name is a log file of the given day whose index is above every listed
   * log file's, so it is not among the listed names.
   */
  lemma NextLogUrlIsFresh(st: Storage, day: Dates.Day)
    ensures NextLogUrl(st, day).None? <==> st.Unresolved?
    ensures NextLogUrl(st, day).Some? ==>
      var n := NextLogUrl(st, day).value;
      Classify(n) == Some(LogFile(n, LogName(CurrentIndex(st) + 1, Dates.FormatDay(day)), day)) &&
      (forall m | m in Listing(st) && Classify(m).Some? :: Classify(m).value.id.index < Classify(n).value.id.index) &&
      n !in Listing(st)
  {
    if !st.Unresolved? {
      CreatedClassifies(st, day);
      CurrentIndexIsMax(st);
    }
  }

  /** A created name is the log file of the next index and the given day. */
  lemma CreatedClassifies(st: Storage, day: Dates.Day)
    ensures var n := CreateLogFileName(st, day);
      Classify(n) == Some(LogFile(n, LogName(CurrentIndex(st) + 1, Dates.FormatDay(day)), day))
  {
    DecodeEncode(LogName(CurrentIndex(st) + 1, Dates.FormatDay(day)));
  }

  /** The filter of `getUrlsOfFilesOlderThan(_:)`: a log file whose date is before `cutoff`. */
  predicate IsOlder(name: string, cutoff: Dates.Instant) {
    match Classify(name)
    case Some(f) => Dates.StartOfDay(f.date) < cutoff
    case None => false
  }

  /** `getUrlsOfFilesOlderThan(_:)`: the listed log files dated before `cutoff`, in listing order. */
  function UrlsOlderThan(st: Storage, cutoff: Dates.Instant): (urls: seq<string>)
    ensures forall n :: n in urls <==> n in Listing(st) && Classify(n).Some? && Dates.StartOfDay(Classify(n).value.date) < cutoff
    ensures !st.Listed? ==> urls == []
  {
    Filter(Listing(st), n => IsOlder(n, cutoff))
  }
}
