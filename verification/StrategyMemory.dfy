/** The strategy memory: a bounded log kept in three parallel lists with a derived search
    index, saved as a whole by writing a draft file and then replacing the main file. */
module StrategyMemory {
  import opened Options
  import opened Ranking

  datatype Memo = Memo(situation: string, advice: string, timestamp: real)

  // ---------------------------------------------------------------- the bounded log

  /** The slice xs[-m:], for any m. */
  function LastSlice<T>(xs: seq<T>, m: int): seq<T> {
    if m > 0 then (if m < |xs| then xs[|xs| - m..] else xs)
    else if -m < |xs| then xs[-m..] else []
  }

  /** The last n entries. */
  function LastN<T>(xs: seq<T>, n: nat): seq<T> {
    if n < |xs| then xs[|xs| - n..] else xs
  }

  function Evicted<T>(xs: seq<T>, limit: int): seq<T> {
    if |xs| > limit then LastSlice(xs, limit) else xs
  }

  /** Eviction keeps the last `limit` entries for a positive limit. Otherwise it should leave
      nothing, and it does so only when the negative limit skips everything. */
  lemma EvictionIsExact<T>(xs: seq<T>, limit: int)
    requires xs != []
    ensures Evicted(xs, limit) == LastN(xs, if limit > 0 then limit else 0) <==> limit >= 1 || |xs| <= -limit
  {
  }

  function Zip(docs: seq<string>, advices: seq<string>, timestamps: seq<real>): (r: seq<Memo>)
    requires |docs| == |advices| == |timestamps|
    ensures |r| == |docs|
  {
    seq(|docs|, i requires 0 <= i < |docs| => Memo(docs[i], advices[i], timestamps[i]))
  }

  lemma ZipAppend(docs: seq<string>, advices: seq<string>, timestamps: seq<real>, r: Memo)
    requires |docs| == |advices| == |timestamps|
    ensures Zip(docs + [r.situation], advices + [r.advice], timestamps + [r.timestamp])
         == Zip(docs, advices, timestamps) + [r]
  {
  }

  function Situations(memos: seq<Memo>): (r: seq<string>)
    ensures |r| == |memos|
  {
    seq(|memos|, i requires 0 <= i < |memos| => memos[i].situation)
  }

  // ---------------------------------------------------------------- the file

  datatype File = Missing | Torn | Whole(records: seq<Memo>)

  /** What a start-up reads: a missing file holds nothing, and neither does a file that
      does not parse. */
  function Loaded(main: File): seq<Memo> {
    if main.Whole? then main.records else []
  }

  /** How far a save got before an error, or the end of the process, stopped it. */
  datatype Progress = BeforeWrite | DuringWrite | BeforeReplace | Done

  function SavedMain(main: File, records: seq<Memo>, progress: Progress): File {
    if progress.Done? then Whole(records) else main
  }

  function SavedDraft(draft: File, records: seq<Memo>, progress: Progress): File {
    match progress
    case BeforeWrite => draft
    case DuringWrite => Torn
    case BeforeReplace => Whole(records)
    case Done => Missing
  }

  class Disk {
    var main: File
    var draft: File

    constructor ()
      ensures main == Missing && draft == Missing
    {
      main, draft := Missing, Missing;
    }

    /** Writing the draft truncates it first, so stopping half-way leaves it torn. */
    method WriteDraft(records: seq<Memo>, complete: bool)
      modifies this`draft
      ensures draft == if complete then Whole(records) else Torn
    {
      draft := Torn;
      if complete {
        draft := Whole(records);
      }
    }

    /** The atomic rename, of whatever the draft holds. */
    method Replace()
      modifies this
      ensures main == old(draft) && draft == Missing
    {
      main, draft := draft, Missing;
    }
  }

  // ---------------------------------------------------------------- the memory

  class StrategyMemory {
    const limit: int
    const indexing: bool
    const scorer: (seq<string>, string) -> seq<real>
    const disk: Disk
    var docs: seq<string>
    var advices: seq<string>
    var timestamps: seq<real>
    /** The documents the search index was built from. */
    var index: Option<seq<string>>

    /** The lists are aligned, and the index is there exactly when there is something to
        search, built from exactly the current documents. */
    ghost predicate Valid()
      reads this
    {
      && |docs| == |advices| == |timestamps|
      && index == if indexing && docs != [] then Some(docs) else None
    }

    ghost function View(): (r: seq<Memo>)
      requires |docs| == |advices| == |timestamps|
      reads this
      ensures |r| == |docs|
    {
      Zip(docs, advices, timestamps)
    }

    constructor (limit: int, indexing: bool, scorer: (seq<string>, string) -> seq<real>, disk: Disk)
      ensures Valid() && this.limit == limit && this.indexing == indexing
      ensures this.scorer == scorer && this.disk == disk
      ensures View() == Loaded(disk.main)
    {
      this.limit, this.indexing, this.scorer, this.disk := limit, indexing, scorer, disk;
      docs, advices, timestamps, index := [], [], [], None;
      new;
      Load();
    }

    method Load()
      requires Valid() && docs == []
      modifies this
      ensures Valid() && View() == Loaded(disk.main)
    {
      if !disk.main.Whole? {
        return;
      }
      var entries := disk.main.records;
      for i := 0 to |entries|
        invariant |docs| == |advices| == |timestamps| && View() == entries[..i]
        invariant disk.main == old(disk.main)
      {
        ghost var before := View();
        ZipAppend(docs, advices, timestamps, entries[i]);
        docs := docs + [entries[i].situation];
        advices := advices + [entries[i].advice];
        timestamps := timestamps + [entries[i].timestamp];
        assert View() == before + [entries[i]];
      }
      RebuildIndex();
    }

    method RebuildIndex()
      requires |docs| == |advices| == |timestamps|
      modifies this`index
      ensures Valid()
    {
      if !indexing || docs == [] {
        index := None;
        return;
      }
      index := Some(docs);
    }

    method Save(progress: Progress)
      requires Valid()
      modifies disk
      ensures disk.main == SavedMain(old(disk.main), View(), progress)
      ensures disk.draft == SavedDraft(old(disk.draft), View(), progress)
    {
      if progress.BeforeWrite? {
        return;
      }
      disk.WriteDraft(Zip(docs, advices, timestamps), !progress.DuringWrite?);
      if progress.Done? {
        disk.Replace();
      }
    }

    method Record(situation: string, advice: string, now: real, progress: Progress)
      requires Valid()
      modifies this, disk
      ensures Valid()
      ensures View() == Evicted(old(View()) + [Memo(situation, advice, now)], limit)
      ensures disk.main == SavedMain(old(disk.main), View(), progress)
      ensures disk.draft == SavedDraft(old(disk.draft), View(), progress)
    {
      ZipAppend(docs, advices, timestamps, Memo(situation, advice, now));
      docs, advices, timestamps := docs + [situation], advices + [advice], timestamps + [now];
      if |docs| > limit {
        docs := LastSlice(docs, limit);
        advices := LastSlice(advices, limit);
        timestamps := LastSlice(timestamps, limit);
      }
      RebuildIndex();
      Save(progress);
    }

    method Clear(progress: Progress)
      requires Valid()
      modifies this, disk
      ensures Valid() && View() == []
      ensures disk.main == SavedMain(old(disk.main), [], progress)
      ensures disk.draft == SavedDraft(old(disk.draft), [], progress)
    {
      docs, advices, timestamps, index := [], [], [], None;
      Save(progress);
    }

    /** The best n records, by how their situations score; nothing when there is no index. */
    method Query(situation: string, n: int) returns (r: Result<seq<Hit<Memo>>, QueryError>)
      requires Valid() && |scorer(Situations(View()), situation)| == |View()|
      ensures r == if !indexing || View() == [] then Ok([])
                   else TopHits(View(), scorer(Situations(View()), situation), n)
    {
      assert Situations(View()) == docs;
      if docs == [] || !indexing || index.None? {
        return Ok([]);
      }
      var scores := scorer(index.value, situation);
      var top := Front(Rank(scores), n);
      if top == [] {
        return Err(EmptyMaximum);
      }
      var best := Divisor(Largest(scores, top));
      var results: seq<Hit<Memo>> := [];
      for k := 0 to |top|
        invariant |results| == k
        invariant forall a :: 0 <= a < k ==> results[a] == Hit(View()[top[a]], scores[top[a]] / best)
      {
        var i := top[k];
        results := results + [Hit(Memo(docs[i], advices[i], timestamps[i]), scores[i] / best)];
      }
      assert results == TopHits(View(), scores, n).value;
      return Ok(results);
    }
  }
}
