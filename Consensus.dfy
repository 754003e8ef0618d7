/**
 * Multi-frame consensus: each recognised frame contributes its six raw lines to six
 * bounded FIFO histories; once every history holds `HISTORY_LIMIT` entries the aligned
 * columns are formatted and each final field is the most frequent value of its column
 * (`selectBest`), the earliest first occurrence winning a tie.
 */
module Consensus {
  import opened Wrappers
  import opened FieldExtractor

  /** Entries each history keeps (`HISTORY_LIMIT`). */
  const HISTORY_LIMIT: nat := 5

  /** One history per raw line of `getInfoArrRaw`. */
  const SLOT_COUNT: nat := 6

  // ---------------------------------------------------------------- selectBest

  /** How often `x` occurs in `list` (`eachCount`). */
  function Count(list: seq<string>, x: string): (n: nat)
    ensures n <= |list|
  {
    if list == [] then 0
    else (if list[0] == x then 1 else 0) + Count(list[1..], x)
  }

  /** A value is counted exactly when it occurs. */
  lemma {:induction false} CountPositive(list: seq<string>, x: string)
    ensures Count(list, x) > 0 <==> x in list
  {
    if list != [] {
      CountPositive(list[1..], x);
      assert list == [list[0]] + list[1..];
    }
  }

  /** Where `x` first occurs in `list`. */
  function FirstIndex(list: seq<string>, x: string): (i: nat)
    requires x in list
    ensures i < |list| && list[i] == x
    ensures forall j :: 0 <= j < i ==> list[j] != x
  {
    var init := list[..|list| - 1];
    assert list == init + [list[|list| - 1]];
    if x in init then FirstIndex(init, x) else |list| - 1
  }

  /**
   * The distinct values of `list` in order of first occurrence: the key order of the
   * insertion-ordered map `groupingBy { it }.eachCount()` builds (`KeysInFirstOccurrenceOrder`).
   */
  function Keys(list: seq<string>): (keys: seq<string>)
    ensures forall x :: x in keys <==> x in list
  {
    if list == [] then []
    else
      var init := list[..|list| - 1];
      var x := list[|list| - 1];
      assert list == init + [x];
      var k := Keys(init);
      if x in k then k else k + [x]
  }

  /** An earlier key first occurs earlier, so in particular the keys are distinct. */
  lemma {:induction false} KeysInFirstOccurrenceOrder(list: seq<string>, i: nat, j: nat)
    requires i < j < |Keys(list)|
    ensures FirstIndex(list, Keys(list)[i]) < FirstIndex(list, Keys(list)[j])
  {
    var init := list[..|list| - 1];
    var x := list[|list| - 1];
    assert list == init + [x];
    var k := Keys(init);
    assert Keys(list)[i] == k[i];
    assert Keys(list)[i] in init;
    if j < |k| {
      assert Keys(list)[j] == k[j];
      assert Keys(list)[j] in init;
      KeysInFirstOccurrenceOrder(init, i, j);
    } else {
      assert Keys(list)[j] == x && x !in init;
    }
  }

  /**
   * `maxByOrNull { it.value }` over the keys: it scans left to right and replaces the
   * current best only on a strictly greater count, so the first maximum wins.
   */
  function FirstMaxIndex(keys: seq<string>, list: seq<string>): (k: nat)
    requires |keys| > 0
    ensures k < |keys|
    ensures forall i :: 0 <= i < |keys| ==> Count(list, keys[i]) <= Count(list, keys[k])
    ensures forall i :: 0 <= i < k ==> Count(list, keys[i]) < Count(list, keys[k])
  {
    if |keys| == 1 then 0
    else
      var m := FirstMaxIndex(keys[..|keys| - 1], list);
      assert keys[..|keys| - 1][m] == keys[m];
      assert forall i :: 0 <= i < |keys| - 1 ==> keys[..|keys| - 1][i] == keys[i];
      if Count(list, keys[m]) < Count(list, keys[|keys| - 1]) then |keys| - 1 else m
  }

  /** `selectBest`: the most frequent value, "" for an empty list. */
  function SelectBest(list: seq<string>): (best: string)
    ensures list == [] ==> best == ""
    ensures list != [] ==> best in list
  {
    if list == [] then ""
    else
      var keys := Keys(list);
      assert list[0] in keys;
      keys[FirstMaxIndex(keys, list)]
  }

  /** The chosen value occurs at least as often as any other value of the list. */
  lemma SelectBestIsMode(list: seq<string>, y: string)
    requires y in list
    ensures Count(list, y) <= Count(list, SelectBest(list))
  {
    var keys := Keys(list);
    var i :| 0 <= i < |keys| && keys[i] == y;
  }

  /** Among equally frequent values, the one that occurs first is chosen. */
  lemma SelectBestFirstOnTie(list: seq<string>, y: string)
    requires y in list && Count(list, y) == Count(list, SelectBest(list))
    ensures FirstIndex(list, SelectBest(list)) <= FirstIndex(list, y)
  {
    var keys := Keys(list);
    var k := FirstMaxIndex(keys, list);
    assert SelectBest(list) == keys[k];
    var i :| 0 <= i < |keys| && keys[i] == y;
    assert k <= i;
    if k < i {
      KeysInFirstOccurrenceOrder(list, k, i);
    }
  }

  /** `selectBest(["A","A","B","A","C"])` is "A". */
  lemma SelectBestExample()
    ensures SelectBest(["A", "A", "B", "A", "C"]) == "A"
  {
    var list := ["A", "A", "B", "A", "C"];
    assert Count(list, "A") == 3 && Count(list, "B") == 1 && Count(list, "C") == 1;
    SelectBestIsMode(list, "A");
    assert forall y :: y in list ==> y == "A" || y == "B" || y == "C";
  }

  // ---------------------------------------------------------------- bounded histories

  /** The last `n` entries of `s` (all of them when there are fewer). */
  function LastN(s: seq<string>, n: nat): (r: seq<string>)
    ensures |r| == if |s| < n then |s| else n
  {
    if |s| <= n then s else s[|s| - n..]
  }

  /** One history update: "" is ignored, otherwise append, evicting the head once full. */
  function Push(fifo: seq<string>, x: string): (p: seq<string>)
    ensures x == "" ==> p == fifo
    ensures x != "" ==> p != [] && p[|p| - 1] == x
    ensures |fifo| <= HISTORY_LIMIT ==> |p| <= HISTORY_LIMIT
  {
    if x == "" then fifo
    else (if |fifo| >= HISTORY_LIMIT then fifo[1..] else fifo) + [x]
  }

  /** A non-empty candidate makes the history the last `HISTORY_LIMIT` of old entries plus it. */
  lemma PushIsWindow(fifo: seq<string>, x: string)
    requires |fifo| <= HISTORY_LIMIT && x != ""
    ensures Push(fifo, x) == LastN(fifo + [x], HISTORY_LIMIT)
    ensures |Push(fifo, x)| <= HISTORY_LIMIT
  {
  }

  /** The candidates of a run of frames that reach a history: the non-empty ones. */
  function NonEmpty(xs: seq<string>): (r: seq<string>)
    ensures forall k :: 0 <= k < |r| ==> r[k] != ""
  {
    if xs == [] then []
    else NonEmpty(xs[..|xs| - 1]) + (if xs[|xs| - 1] == "" then [] else [xs[|xs| - 1]])
  }

  /** A history after a run of candidates, pushed one at a time. */
  function PushAll(fifo: seq<string>, xs: seq<string>): seq<string> {
    if xs == [] then fifo else Push(PushAll(fifo, xs[..|xs| - 1]), xs[|xs| - 1])
  }

  lemma LastNOfLastN(s: seq<string>, x: string, n: nat)
    requires n > 0
    ensures LastN(LastN(s, n) + [x], n) == LastN(s + [x], n)
  {
    if |s| > n {
      assert (s + [x])[|s| + 1 - n..] == s[|s| + 1 - n..] + [x];
      assert (s[|s| - n..] + [x])[1..] == s[|s| + 1 - n..] + [x];
    }
  }

  /**
   * FIFO behaviour over any run of frames: a history that starts within the bound holds
   * exactly the last `HISTORY_LIMIT` non-empty candidates it has seen, in arrival order.
   */
  lemma {:induction false} PushAllIsWindow(fifo: seq<string>, xs: seq<string>)
    requires |fifo| <= HISTORY_LIMIT
    ensures PushAll(fifo, xs) == LastN(fifo + NonEmpty(xs), HISTORY_LIMIT)
  {
    if xs != [] {
      var init := xs[..|xs| - 1];
      var x := xs[|xs| - 1];
      PushAllIsWindow(fifo, init);
      assert LastN(fifo, HISTORY_LIMIT) == fifo;
      if x != "" {
        PushIsWindow(PushAll(fifo, init), x);
        LastNOfLastN(fifo + NonEmpty(init), x, HISTORY_LIMIT);
        assert fifo + NonEmpty(xs) == (fifo + NonEmpty(init)) + [x];
      } else {
        assert NonEmpty(xs) == NonEmpty(init);
      }
    }
  }

  /** Every history updated by its own slot of one frame's raw lines. */
  function Ingested(history: seq<seq<string>>, info: seq<string>): (h: seq<seq<string>>)
    requires |history| == SLOT_COUNT && |info| == SLOT_COUNT
    ensures |h| == SLOT_COUNT
  {
    seq(SLOT_COUNT, i requires 0 <= i < SLOT_COUNT => Push(history[i], info[i]))
  }

  /** No history grows past its bound. */
  lemma IngestedKeepsBound(history: seq<seq<string>>, info: seq<string>)
    requires |history| == SLOT_COUNT && |info| == SLOT_COUNT
    requires forall i :: 0 <= i < SLOT_COUNT ==> |history[i]| <= HISTORY_LIMIT
    ensures forall i :: 0 <= i < SLOT_COUNT ==> |Ingested(history, info)[i]| <= HISTORY_LIMIT
  {
    forall i | 0 <= i < SLOT_COUNT
      ensures |Ingested(history, info)[i]| <= HISTORY_LIMIT
    {
      if info[i] != "" {
        PushIsWindow(history[i], info[i]);
      }
    }
  }

  /** The name history and its copy stay equal across any frame. */
  lemma NameSlotsStayEqual(history: seq<seq<string>>, rules: TextRules, text: string)
    requires |history| == SLOT_COUNT && history[0] == history[1]
    ensures Ingested(history, GetInfoArrRaw(rules, text))[0] == Ingested(history, GetInfoArrRaw(rules, text))[1]
  {
  }

  // ---------------------------------------------------------------- finalisation

  /** Every history is full (`history.all { it.size >= HISTORY_LIMIT }`). */
  predicate AllFull(history: seq<seq<string>>): (full: bool)
    ensures full ==> forall k :: 0 <= k < HISTORY_LIMIT ==>
      (forall i :: 0 <= i < |history| ==> k < |history[i]|) && |Column(history, k)| == SLOT_COUNT
  {
    |history| == SLOT_COUNT && forall i :: 0 <= i < SLOT_COUNT ==> |history[i]| >= HISTORY_LIMIT
  }

  /** Entry `k` of every history (`history.map { it[k] }`). */
  function Column(history: seq<seq<string>>, k: nat): (c: seq<string>)
    requires forall i :: 0 <= i < |history| ==> k < |history[i]|
    ensures |c| == |history| && forall i :: 0 <= i < |history| ==> c[i] == history[i][k]
  {
    seq(|history|, i requires 0 <= i < |history| => history[i][k])
  }

  /** Field `col` of every formatted candidate (`formattedAll.map { it[col] }`). */
  function FieldColumn(all: seq<Formatted>, col: nat): (c: seq<string>)
    requires col < FIELD_COUNT
    ensures |c| == |all| && forall i :: 0 <= i < |all| ==> c[i] == all[i].At(col)
  {
    seq(|all|, i requires 0 <= i < |all| => all[i].At(col))
  }

  /** `bestFields`: the `selectBest` of each field column (`BestFieldsAt`). */
  function BestFields(all: seq<Formatted>): (best: Formatted)
    ensures all != [] ==> forall col :: 0 <= col < FIELD_COUNT ==> best.At(col) in FieldColumn(all, col)
  {
    Formatted(SelectBest(FieldColumn(all, 0)), SelectBest(FieldColumn(all, 1)),
              SelectBest(FieldColumn(all, 2)), SelectBest(FieldColumn(all, 3)),
              SelectBest(FieldColumn(all, 4)), SelectBest(FieldColumn(all, 5)))
  }

  lemma BestFieldsAt(all: seq<Formatted>, col: nat)
    requires col < FIELD_COUNT
    ensures BestFields(all).At(col) == SelectBest(FieldColumn(all, col))
  {
    match col
    case 0 =>
    case 1 =>
    case 2 =>
    case 3 =>
    case 4 =>
    case 5 =>
  }

  /**
   * The formatted candidates of entries `0 until n` of a full history, one per aligned
   * column (`formattedAll` after `n` rounds of its loop).
   */
  function FormattedColumns(rules: TextRules, history: seq<seq<string>>, n: nat): (all: seq<Formatted>)
    requires DatesInBounds(rules) && AllFull(history) && n <= HISTORY_LIMIT
    ensures |all| == n
  {
    if n == 0 then []
    else FormattedColumns(rules, history, n - 1) + [FormatFromLines(rules, Column(history, n - 1))]
  }

  /** The final fields of a full history. */
  function Final(rules: TextRules, history: seq<seq<string>>): (final: Formatted)
    requires DatesInBounds(rules) && AllFull(history)
    ensures forall col :: 0 <= col < FIELD_COUNT ==>
      final.At(col) in FieldColumn(FormattedColumns(rules, history, HISTORY_LIMIT), col)
  {
    BestFields(FormattedColumns(rules, history, HISTORY_LIMIT))
  }

  /**
   * Each final field is a value its column of formatted candidates takes most often, the
   * earliest such value on a tie.
   */
  lemma FinalIsColumnMode(rules: TextRules, history: seq<seq<string>>, col: nat, k: nat)
    requires DatesInBounds(rules) && AllFull(history)
    requires col < FIELD_COUNT && k < HISTORY_LIMIT
    ensures var column := FieldColumn(FormattedColumns(rules, history, HISTORY_LIMIT), col);
      && Final(rules, history).At(col) in column
      && Count(column, column[k]) <= Count(column, Final(rules, history).At(col))
      && (Count(column, column[k]) == Count(column, Final(rules, history).At(col)) ==>
            FirstIndex(column, Final(rules, history).At(col)) <= FirstIndex(column, column[k]))
  {
    var column := FieldColumn(FormattedColumns(rules, history, HISTORY_LIMIT), col);
    BestFieldsAt(FormattedColumns(rules, history, HISTORY_LIMIT), col);
    assert column[k] in column;
    SelectBestIsMode(column, column[k]);
    if Count(column, column[k]) == Count(column, SelectBest(column)) {
      SelectBestFirstOnTie(column, column[k]);
    }
  }

  // ---------------------------------------------------------------- the session

  /** The loop of `handleOcrResult` that formats each aligned column of a full history. */
  method FormatAll(rules: TextRules, history: seq<seq<string>>) returns (formattedAll: seq<Formatted>)
    requires DatesInBounds(rules) && AllFull(history)
    ensures formattedAll == FormattedColumns(rules, history, HISTORY_LIMIT)
  {
    formattedAll := [];
    for i := 0 to HISTORY_LIMIT
      invariant formattedAll == FormattedColumns(rules, history, i)
    {
      var candidate := Column(history, i);
      formattedAll := formattedAll + [FormatFromLines(rules, candidate)];
    }
  }

  /** The consensus of a full history: its columns formatted, then `bestFields`. */
  method ConsensusOf(rules: TextRules, history: seq<seq<string>>) returns (fields: Formatted)
    requires DatesInBounds(rules) && AllFull(history)
    ensures fields == Final(rules, history)
  {
    var formattedAll := FormatAll(rules, history);
    fields := BestFields(formattedAll);
  }

  function EmptyHistory(): (h: seq<seq<string>>)
    ensures |h| == SLOT_COUNT && forall i :: 0 <= i < SLOT_COUNT ==> h[i] == []
  {
    seq(SLOT_COUNT, _ => [])
  }

  /**
   * The scanning state of the activity: six histories, the `scanningActive` flag (cleared
   * once a consensus is reached) and the `isProcessing` flag (set while a frame is being
   * recognised). The recogniser's patterns are fixed for the session.
   */
  class ScanSession {
    const rules: TextRules
    var history: seq<seq<string>>
    var scanningActive: bool
    var isProcessing: bool

    ghost predicate Valid()
      reads this
    {
      && DatesInBounds(rules)
      && |history| == SLOT_COUNT
      && (forall i :: 0 <= i < SLOT_COUNT ==> |history[i]| <= HISTORY_LIMIT)
      && history[0] == history[1]
    }

    constructor (rules: TextRules)
      requires DatesInBounds(rules)
      ensures Valid()
      ensures this.rules == rules && history == EmptyHistory()
      ensures scanningActive && !isProcessing
    {
      this.rules := rules;
      history := EmptyHistory();
      scanningActive := true;
      isProcessing := false;
    }

    /**
     * `handleOcrResult`: push each non-empty raw line into its history; when every
     * history is full, return the consensus fields and stop scanning.
     */
    method Ingest(recognizedText: string) returns (best: Option<Formatted>)
      requires Valid()
      modifies this
      ensures Valid()
      ensures history == Ingested(old(history), GetInfoArrRaw(rules, recognizedText))
      ensures best.Some? <==> AllFull(history)
      ensures best.Some? ==> best.value == Final(rules, history) && !scanningActive
      ensures best.None? ==> scanningActive == old(scanningActive)
      ensures isProcessing == old(isProcessing)
    {
      var infoArr := GetInfoArrRaw(rules, recognizedText);
      best := IngestRawLines(infoArr);
    }

    /** `handleOcrResult` once the raw lines of the frame are known. */
    method IngestRawLines(infoArr: seq<string>) returns (best: Option<Formatted>)
      requires Valid() && |infoArr| == SLOT_COUNT && infoArr[0] == infoArr[1]
      modifies this
      ensures Valid()
      ensures history == Ingested(old(history), infoArr)
      ensures best.Some? <==> AllFull(history)
      ensures best.Some? ==> best.value == Final(rules, Ingested(old(history), infoArr)) && !scanningActive
      ensures best.None? ==> scanningActive == old(scanningActive)
      ensures isProcessing == old(isProcessing)
    {
      PushRawLines(infoArr);
      if AllFull(history) {
        var fields := ConsensusOf(rules, history);
        StopScanning();
        best := Some(fields);
      } else {
        best := None;
      }
    }

    /** The consensus is shown: scanning stops, everything else is kept. */
    method StopScanning()
      requires Valid()
      modifies this
      ensures Valid() && !scanningActive
      ensures history == old(history) && isProcessing == old(isProcessing)
    {
      scanningActive := false;
    }

    /** The loop of `handleOcrResult` that feeds slot `i` of the raw lines to history `i`. */
    method PushRawLines(infoArr: seq<string>)
      requires Valid() && |infoArr| == SLOT_COUNT && infoArr[0] == infoArr[1]
      modifies this
      ensures Valid()
      ensures history == Ingested(old(history), infoArr)
      ensures isProcessing == old(isProcessing) && scanningActive == old(scanningActive)
    {
      ghost var target := Ingested(history, infoArr);
      IngestedKeepsBound(history, infoArr);
      for i := 0 to |infoArr|
        invariant |history| == SLOT_COUNT
        invariant forall j :: 0 <= j < i ==> history[j] == target[j]
        invariant forall j :: i <= j < SLOT_COUNT ==> history[j] == old(history)[j]
        invariant isProcessing == old(isProcessing) && scanningActive == old(scanningActive)
      {
        if infoArr[i] != "" {
          var list := history[i];
          if |list| >= HISTORY_LIMIT {
            list := list[1..];
          }
          list := list + [infoArr[i]];
          history := history[i := list];
        }
      }
      assert history == target;
    }

    /** The rescan button: clear every history and resume scanning. */
    method Rescan()
      requires Valid()
      modifies this
      ensures Valid()
      ensures history == EmptyHistory() && scanningActive && !isProcessing
    {
      scanningActive := true;
      isProcessing := false;
      for i := 0 to SLOT_COUNT
        invariant |history| == SLOT_COUNT
        invariant forall j :: 0 <= j < i ==> history[j] == []
        invariant forall j :: i <= j < SLOT_COUNT ==> history[j] == old(history)[j]
        invariant scanningActive && !isProcessing
      {
        history := history[i := []];
      }
    }

    /**
     * The frame gate of `onImageAvailable`: a frame is dropped while scanning is off or a
     * frame is in flight; otherwise a usable frame (a non-empty crop, or an image)
     * is sent to recognition and marks the session busy.
     */
    method OnFrame(frameUsable: bool) returns (accepted: bool)
      modifies this
      ensures accepted <==> old(scanningActive) && !old(isProcessing) && frameUsable
      ensures isProcessing == (old(isProcessing) || accepted)
      ensures history == old(history) && scanningActive == old(scanningActive)
    {
      if !scanningActive || isProcessing {
        return false;
      }
      if !frameUsable {
        return false;
      }
      isProcessing := true;
      accepted := true;
    }

    /** The recogniser's completion (or the conversion's failure) clears the busy flag. */
    method OnRecognitionDone()
      modifies this
      ensures !isProcessing
      ensures history == old(history) && scanningActive == old(scanningActive)
    {
      isProcessing := false;
    }
  }
}
