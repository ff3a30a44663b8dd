/**
 The deduplicating, size-triggered buffered sink `DataPipeline`: records are
 dropped when their `name` was seen before, queued otherwise, and appended to
 a CSV file whenever the queue reaches its limit and when the pipeline is
 closed. The file itself is external; it is modelled as the ghost sequence of
 rows it holds plus the "exists and is non-empty" answer the operating system
 gives for it.
 */
module Sink {
  import opened Normalize
  import opened Seqs

  /** A record handed to a pipeline: a listing post or a comment. */
  datatype Record = Search(post: SearchData) | Comment(comment: CommentData) {
    /** The dedup key: the `name` field of either dataclass. */
    function Name(): string {
      match this
      case Search(p) => p.name
      case Comment(c) => c.name
    }

    /** `[field.name for field in fields(record)]`, the CSV header of the record's type. */
    function FieldNames(): seq<string> {
      match this
      case Search(_) => ["name", "author", "permalink", "upvote_ratio"]
      case Comment(_) => ["name", "body", "upvotes"]
    }
  }

  /** A row of the output file: the header `writeheader` writes, or one record written by `writerow`. */
  datatype Row = Header(keys: seq<string>) | DataRow(record: Record)

  function Names(rs: seq<Record>): seq<string> {
    seq(|rs|, i requires 0 <= i < |rs| => rs[i].Name())
  }

  function DataRows(rs: seq<Record>): seq<Row> {
    seq(|rs|, i requires 0 <= i < |rs| => DataRow(rs[i]))
  }

  lemma NamesAppend(a: seq<Record>, b: seq<Record>)
    ensures Names(a + b) == Names(a) + Names(b)
    ensures |b| == 1 ==> Names(b) == [b[0].Name()]
  {
    assert forall i :: 0 <= i < |a| + |b| ==> Names(a + b)[i] == (Names(a) + Names(b))[i];
  }

  lemma DataRowsAppend(a: seq<Record>, b: seq<Record>)
    ensures DataRows(a + b) == DataRows(a) + DataRows(b)
  {
    assert forall i :: 0 <= i < |a| + |b| ==> DataRows(a + b)[i] == (DataRows(a) + DataRows(b))[i];
  }

  predicate NoDuplicates<T(==)>(s: seq<T>) {
    forall i, j :: 0 <= i < j < |s| ==> s[i] != s[j]
  }

  /**
   What a pipeline keeps of the records `rs` handed to `add_data` in this
   order: each record whose name has not been seen before, in arrival order.
   */
  function Dedup(rs: seq<Record>): seq<Record> {
    if rs == [] then []
    else
      var kept := Dedup(rs[..|rs| - 1]);
      var last := rs[|rs| - 1];
      if last.Name() in Names(kept) then kept else kept + [last]
  }

  /** Dedup of one more record: the record is kept exactly when its name is new. */
  lemma DedupSnoc(rs: seq<Record>, r: Record)
    ensures Dedup(rs + [r]) == if r.Name() in Names(Dedup(rs)) then Dedup(rs) else Dedup(rs) + [r]
  {
    assert (rs + [r])[..|rs|] == rs;
  }

  /** A single record is kept. */
  lemma DedupSingle(r: Record)
    ensures Dedup([r]) == [r]
  {
    assert [r][..0] == [];
  }

  /** No name is kept twice. */
  lemma {:induction false} DedupUnique(rs: seq<Record>)
    ensures NoDuplicates(Names(Dedup(rs)))
  {
    if rs != [] {
      var init := rs[..|rs| - 1];
      DedupUnique(init);
      var last := rs[|rs| - 1];
      assert rs == init + [last];
      DedupSnoc(init, last);
      NamesAppend(Dedup(init), [last]);
    }
  }

  /** A name is kept exactly when some record handed in carries it; every kept record was handed in. */
  lemma {:induction false} DedupCovers(rs: seq<Record>)
    ensures forall n :: n in Names(Dedup(rs)) <==> n in Names(rs)
    ensures forall r :: r in Dedup(rs) ==> r in rs
  {
    if rs != [] {
      var init := rs[..|rs| - 1];
      var last := rs[|rs| - 1];
      DedupCovers(init);
      assert rs == init + [last];
      DedupSnoc(init, last);
      NamesAppend(Dedup(init), [last]);
      NamesAppend(init, [last]);
    }
  }

  /** Index of the first occurrence of `n` in `ns` (|ns| when absent). */
  function FirstIndex(ns: seq<string>, n: string): (k: nat)
    ensures k <= |ns|
    ensures k < |ns| <==> n in ns
    ensures k < |ns| ==> ns[k] == n
    ensures forall j :: 0 <= j < k ==> ns[j] != n
  {
    if ns == [] then 0
    else if ns[0] == n then 0
    else 1 + FirstIndex(ns[1..], n)
  }

  lemma FirstIndexSnoc(ns: seq<string>, m: string, n: string)
    ensures FirstIndex(ns + [m], n) == if n in ns then FirstIndex(ns, n) else if n == m then |ns| else |ns| + 1
  {
    var k := FirstIndex(ns, n);
    var k' := FirstIndex(ns + [m], n);
    if n in ns {
      assert (ns + [m])[k] == n;
      assert forall j :: 0 <= j < k ==> (ns + [m])[j] != n;
    } else {
      assert forall j :: 0 <= j < |ns| ==> (ns + [m])[j] != n;
    }
  }

  /** Where the name of a record kept from `init` first occurs does not move when a record is appended. */
  lemma FirstIndexKept(init: seq<Record>, last: Record, n: string)
    requires n in Names(init)
    ensures FirstIndex(Names(init + [last]), n) == FirstIndex(Names(init), n)
  {
    NamesAppend(init, [last]);
    FirstIndexSnoc(Names(init), last.Name(), n);
  }

  /** First-seen: the `k`-th kept record is the record at the first position of its name in the input. */
  lemma {:induction false} DedupFirstSeen(rs: seq<Record>, k: nat)
    requires k < |Dedup(rs)|
    ensures FirstIndex(Names(rs), Dedup(rs)[k].Name()) < |rs|
    ensures rs[FirstIndex(Names(rs), Dedup(rs)[k].Name())] == Dedup(rs)[k]
  {
    var init := rs[..|rs| - 1];
    var last := rs[|rs| - 1];
    assert rs == init + [last];
    DedupSnoc(init, last);
    var d := Dedup(init);
    if k < |d| {
      assert Dedup(rs)[k] == d[k];
      DedupFirstSeen(init, k);
      var n := d[k].Name();
      assert Names(init)[FirstIndex(Names(init), n)] == n;
      FirstIndexKept(init, last, n);
    } else {
      NamesAppend(init, [last]);
      DedupCovers(init);
      FirstIndexSnoc(Names(init), last.Name(), last.Name());
    }
  }

  /** Arrival order: kept records appear in increasing order of the first positions of their names. */
  lemma {:induction false} DedupInOrder(rs: seq<Record>, k: nat, l: nat)
    requires k < l < |Dedup(rs)|
    ensures FirstIndex(Names(rs), Dedup(rs)[k].Name()) < FirstIndex(Names(rs), Dedup(rs)[l].Name())
  {
    var init := rs[..|rs| - 1];
    var last := rs[|rs| - 1];
    assert rs == init + [last];
    DedupSnoc(init, last);
    var d := Dedup(init);
    DedupCovers(init);
    assert Dedup(rs)[k] == d[k];
    var nk := d[k].Name();
    assert Names(d)[k] == nk;
    FirstIndexKept(init, last, nk);
    if l < |d| {
      assert Dedup(rs)[l] == d[l];
      DedupInOrder(init, k, l);
      var nl := d[l].Name();
      assert Names(d)[l] == nl;
      FirstIndexKept(init, last, nl);
    } else {
      NamesAppend(init, [last]);
      FirstIndexSnoc(Names(init), last.Name(), last.Name());
    }
  }

  function Elements(ns: seq<string>): set<string> {
    set n | n in ns
  }

  lemma {:induction false} NoDuplicatesCard(ns: seq<string>)
    requires NoDuplicates(ns)
    ensures |Elements(ns)| == |ns|
  {
    if ns != [] {
      var init := ns[..|ns| - 1];
      var last := ns[|ns| - 1];
      assert ns == init + [last];
      NoDuplicatesCard(init);
      assert Elements(ns) == Elements(init) + {last};
      assert last !in Elements(init);
    }
  }

  /** The number of records kept is the number of distinct names handed in. */
  lemma DedupCount(rs: seq<Record>)
    ensures |Dedup(rs)| == |Elements(Names(rs))|
  {
    DedupUnique(rs);
    DedupCovers(rs);
    NoDuplicatesCard(Names(Dedup(rs)));
    assert Elements(Names(Dedup(rs))) == Elements(Names(rs));
  }

  /** Records whose names were all seen before leave what is kept unchanged. */
  lemma {:induction false} DedupAbsorbs(a: seq<Record>, b: seq<Record>)
    requires forall i :: 0 <= i < |b| ==> b[i].Name() in Names(a)
    ensures Dedup(a + b) == Dedup(a)
  {
    if b == [] {
      assert a + b == a;
    } else {
      var init := b[..|b| - 1];
      var last := b[|b| - 1];
      assert forall i :: 0 <= i < |init| ==> init[i] == b[i];
      DedupAbsorbs(a, init);
      assert a + b == (a + init) + [last];
      DedupSnoc(a + init, last);
      DedupCovers(a);
      assert last.Name() in Names(a);
    }
  }

  /** What is kept of `a + t` depends on `a` only through what is kept of `a`. */
  lemma {:induction false} DedupCongruent(a: seq<Record>, a': seq<Record>, t: seq<Record>)
    requires Dedup(a) == Dedup(a')
    ensures Dedup(a + t) == Dedup(a' + t)
  {
    if t == [] {
      assert a + t == a && a' + t == a';
    } else {
      var init := t[..|t| - 1];
      var last := t[|t| - 1];
      DedupCongruent(a, a', init);
      assert a + t == (a + init) + [last];
      assert a' + t == (a' + init) + [last];
      DedupSnoc(a + init, last);
      DedupSnoc(a' + init, last);
    }
  }

  /**
   A retried fetch that hands in again a prefix `p` of what it handed in before
   keeps nothing twice: what is kept equals what one clean run `p + t` keeps.
   */
  lemma RetryKeepsOnce(p: seq<Record>, t: seq<Record>)
    ensures Dedup(p + (p + t)) == Dedup(p + t)
  {
    assert p + (p + t) == (p + p) + t;
    forall i | 0 <= i < |p| ensures p[i].Name() in Names(p) {
      assert Names(p)[i] == p[i].Name();
    }
    DedupAbsorbs(p, p);
    DedupCongruent(p + p, p, t);
  }

  /** The header rows this pipeline adds to a file that held `initial` when it was opened. */
  function HeaderRows(initial: seq<Row>, written: seq<Record>): seq<Row> {
    if initial == [] && written != [] then [Header(written[0].FieldNames())] else []
  }

  /** The file is empty exactly when it was empty at the start and nothing has been written. */
  lemma FileEmpty(initial: seq<Row>, written: seq<Record>)
    ensures initial + HeaderRows(initial, written) + DataRows(written) == [] <==> initial == [] && written == []
  {
    if initial == [] && written == [] {
      assert DataRows(written) == [];
    }
  }

  /** Writing a non-empty batch adds a header exactly when the file was empty. */
  lemma HeaderRowsAppend(initial: seq<Row>, written: seq<Record>, batch: seq<Record>)
    requires batch != []
    ensures HeaderRows(initial, written + batch) ==
      HeaderRows(initial, written) + if initial == [] && written == [] then [Header(batch[0].FieldNames())] else []
  {
    if written != [] {
      assert (written + batch)[0] == written[0];
    } else {
      assert written + batch == batch;
    }
  }

  /** A flush of a non-empty batch keeps the file in the shape the pipeline invariant describes. */
  lemma FileAfterFlush(initial: seq<Row>, written: seq<Record>, batch: seq<Record>)
    requires batch != []
    ensures initial + HeaderRows(initial, written + batch) + DataRows(written + batch) ==
      (initial + HeaderRows(initial, written) + DataRows(written))
      + (if initial == [] && written == [] then [Header(batch[0].FieldNames())] else [])
      + DataRows(batch)
  {
    HeaderRowsAppend(initial, written, batch);
    DataRowsAppend(written, batch);
    if initial == [] && written == [] {
      assert DataRows(written) == [];
    }
  }

  /**
   One more record keeps the first-seen bookkeeping: a seen name leaves it
   as it is, a new name joins the end of both the kept records and the names.
   */
  lemma AddStep(written: seq<Record>, queue: seq<Record>, added: seq<Record>, r: Record)
    requires written + queue == Dedup(added)
    ensures r.Name() in Names(Dedup(added)) ==> Dedup(added + [r]) == written + queue
    ensures r.Name() !in Names(Dedup(added)) ==>
      && Dedup(added + [r]) == written + (queue + [r])
      && Names(Dedup(added + [r])) == Names(Dedup(added)) + [r.Name()]
  {
    DedupSnoc(added, r);
    NamesAppend(Dedup(added), [r]);
    AppendAssoc(written, queue, [r]);
  }

  function Max1(n: int): int {
    if n < 1 then 1 else n
  }

  class DataPipeline {
    var namesSeen: seq<string>
    var storageQueue: seq<Record>
    const storageQueueLimit: int
    const csvFilename: string
    var csvFileOpen: bool
    /** What `os.path.isfile(csv_filename) and os.path.getsize(csv_filename) > 0` answers. */
    var fileHasContent: bool

    /** The rows of the output file. */
    ghost var file: seq<Row>
    /** The rows the file held when the pipeline was created. */
    ghost const initialFile: seq<Row>
    /** Every record handed to `add_data`, in call order. */
    ghost var added: seq<Record>
    /** The records this pipeline has written to the file, in order. */
    ghost var written: seq<Record>

    /**
     The invariant every public method keeps: the written records followed
     by the queue are exactly the first-seen records of everything added,
     `names_seen` lists their names, and the file holds its old rows, one
     header if it was empty before, and the written records.
     */
    ghost predicate Consistent()
      reads this
    {
      && written + storageQueue == Dedup(added)
      && namesSeen == Names(Dedup(added))
      && file == initialFile + HeaderRows(initialFile, written) + DataRows(written)
      && fileHasContent == (file != [])
    }

    /** Between calls the queue is below its limit (below 1 for a limit under 1), unless a flush was left open. */
    ghost predicate Valid()
      reads this
    {
      Consistent() && (!csvFileOpen ==> |storageQueue| < Max1(storageQueueLimit))
    }

    /** `DataPipeline(csv_filename, storage_queue_limit)` opening a file that holds `existing`. */
    constructor (csvFilename: string := "", storageQueueLimit: int := 50, existing: seq<Row> := [])
      ensures Valid()
      ensures this.csvFilename == csvFilename && this.storageQueueLimit == storageQueueLimit
      ensures namesSeen == [] && storageQueue == [] && !csvFileOpen
      ensures initialFile == existing && file == existing
      ensures added == [] && written == []
    {
      namesSeen := [];
      storageQueue := [];
      this.storageQueueLimit := storageQueueLimit;
      this.csvFilename := csvFilename;
      csvFileOpen := false;
      fileHasContent := existing != [];
      file := existing;
      initialFile := existing;
      added := [];
      written := [];
    }

    /** No name is listed twice in `names_seen`. */
    lemma NamesSeenUnique()
      requires Consistent()
      ensures NoDuplicates(namesSeen)
    {
      DedupUnique(added);
    }

    /**
     `save_to_csv`: move the whole queue to the file, preceded by a header
     when the file was missing or empty. On an empty queue it returns early
     and leaves `csv_file_open` set.
     */
    method SaveToCsv()
      requires Consistent()
      modifies this
      ensures Valid()
      ensures storageQueue == []
      ensures written == old(written) + old(storageQueue)
      ensures file == old(file)
        + (if old(storageQueue) != [] && !old(fileHasContent) then [Header(old(storageQueue)[0].FieldNames())] else [])
        + DataRows(old(storageQueue))
      ensures csvFileOpen == (old(storageQueue) == [])
      ensures namesSeen == old(namesSeen) && added == old(added)
    {
      csvFileOpen := true;
      var dataToSave := storageQueue;
      storageQueue := [];
      if dataToSave == [] {
        assert DataRows(dataToSave) == [] && written + dataToSave == written;
        return;
      }
      FileEmpty(initialFile, written);
      FileAfterFlush(initialFile, written, dataToSave);
      ghost var before := file;
      var keys := dataToSave[0].FieldNames();
      var fileExists := fileHasContent;
      ghost var header := if fileExists then [] else [Header(keys)];
      assert header == if initialFile == [] && written == [] then [Header(dataToSave[0].FieldNames())] else [];
      if !fileExists {
        file := file + [Header(keys)];
        fileHasContent := true;
      }
      assert file == before + header;
      WriteRows(dataToSave);
      assert file == before + header + DataRows(dataToSave) && file != [];
      written := written + dataToSave;
      assert written + storageQueue == written;
      csvFileOpen := false;
    }

    /** The `writer.writerow` loop of `save_to_csv`: one row per record, in queue order. */
    method WriteRows(batch: seq<Record>)
      modifies this`file
      ensures file == old(file) + DataRows(batch)
    {
      for i := 0 to |batch|
        invariant file == old(file) + DataRows(batch[..i])
      {
        assert batch[..i + 1] == batch[..i] + [batch[i]];
        DataRowsAppend(batch[..i], [batch[i]]);
        file := file + [DataRow(batch[i])];
      }
      assert batch[..|batch|] == batch;
    }

    /** `is_duplicate`: true exactly when the name was seen; otherwise the name is recorded. */
    method IsDuplicate(inputData: Record) returns (duplicate: bool)
      modifies this`namesSeen
      ensures duplicate == (inputData.Name() in old(namesSeen))
      ensures namesSeen == if duplicate then old(namesSeen) else old(namesSeen) + [inputData.Name()]
    {
      if inputData.Name() in namesSeen {
        return true;
      }
      namesSeen := namesSeen + [inputData.Name()];
      return false;
    }

    /**
     `add_data`: a record with a new name is appended to the queue, and the
     queue is flushed when it reaches the limit while no flush is open; a
     duplicate changes nothing but the ghost history.
     */
    method AddData(scrapedData: Record)
      requires Valid()
      modifies this
      ensures Valid()
      ensures added == old(added) + [scrapedData]
      ensures old(scrapedData.Name() in namesSeen) ==>
        && namesSeen == old(namesSeen) && storageQueue == old(storageQueue)
        && written == old(written) && file == old(file) && csvFileOpen == old(csvFileOpen)
      ensures old(scrapedData.Name() !in namesSeen) ==>
        && namesSeen == old(namesSeen) + [scrapedData.Name()]
        && if |old(storageQueue)| + 1 >= storageQueueLimit && !old(csvFileOpen) then
             && storageQueue == [] && !csvFileOpen
             && written == old(written) + old(storageQueue) + [scrapedData]
           else
             && storageQueue == old(storageQueue) + [scrapedData]
             && written == old(written) && file == old(file) && csvFileOpen == old(csvFileOpen)
    {
      AddStep(written, storageQueue, added, scrapedData);
      added := added + [scrapedData];
      var duplicate := IsDuplicate(scrapedData);
      if !duplicate {
        Enqueue(scrapedData);
      } else {
        assert written + storageQueue == Dedup(added) && namesSeen == Names(Dedup(added));
      }
    }

    /**
     The new-name branch of `add_data`, entered once `r` counts as added and
     its name as seen: queue `r`, and flush when the queue reaches the limit
     while no flush is open.
     */
    method Enqueue(r: Record)
      requires written + (storageQueue + [r]) == Dedup(added)
      requires namesSeen == Names(Dedup(added))
      requires file == initialFile + HeaderRows(initialFile, written) + DataRows(written)
      requires fileHasContent == (file != [])
      requires !csvFileOpen ==> |storageQueue| < Max1(storageQueueLimit)
      modifies this
      ensures Valid()
      ensures added == old(added) && namesSeen == old(namesSeen)
      ensures if |old(storageQueue)| + 1 >= storageQueueLimit && !old(csvFileOpen) then
          && storageQueue == [] && !csvFileOpen
          && written == old(written) + old(storageQueue) + [r]
        else
          && storageQueue == old(storageQueue) + [r]
          && written == old(written) && file == old(file) && csvFileOpen == old(csvFileOpen)
    {
      storageQueue := storageQueue + [r];
      if |storageQueue| >= storageQueueLimit && !csvFileOpen {
        SaveToCsv();
      }
    }

    /**
     `close_pipeline`: flush whatever is queued. Afterwards every distinct
     name added has been written exactly once, in first-seen order.
     */
    method ClosePipeline()
      requires Valid()
      modifies this
      ensures Valid()
      ensures storageQueue == [] && written == old(written) + old(storageQueue) && written == Dedup(added)
      ensures file == initialFile + HeaderRows(initialFile, Dedup(added)) + DataRows(Dedup(added))
      ensures added == old(added) && namesSeen == old(namesSeen)
      ensures old(storageQueue) == [] ==> file == old(file) && csvFileOpen == old(csvFileOpen)
      ensures old(storageQueue) != [] ==> !csvFileOpen
    {
      if |storageQueue| > 0 {
        SaveToCsv();
      }
    }
  }

  /**
   Four posts named a, b, a, c reach a pipeline with limit 2: "b" fills the
   queue and flushes a and b with a header, the second "a" is dropped, "c"
   waits in the queue, and closing writes it.
   */
  method ThresholdScenario(a: Record, b: Record, a2: Record, c: Record) returns (p: DataPipeline)
    requires a.Search? && b.Search? && c.Search?
    requires a2.Name() == a.Name() && a.Name() != b.Name() && c.Name() != a.Name() && c.Name() != b.Name()
    ensures p.storageQueue == [] && p.written == [a, b, c]
    ensures p.file == [Header(a.FieldNames()), DataRow(a), DataRow(b), DataRow(c)]
  {
    p := new DataPipeline("news.csv", 2);
    p.AddData(a);
    assert p.storageQueue == [a];
    p.AddData(b);
    assert p.written == [a, b] && p.namesSeen == [a.Name(), b.Name()];
    p.AddData(a2);
    p.AddData(c);
    assert p.storageQueue == [c];
    p.ClosePipeline();
    FileOfThree(a, b, c);
  }

  lemma FileOfThree(a: Record, b: Record, c: Record)
    ensures [] + HeaderRows([], [a, b, c]) + DataRows([a, b, c]) == [Header(a.FieldNames()), DataRow(a), DataRow(b), DataRow(c)]
  {
  }

}
