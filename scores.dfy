/**
 * The score table of ScoresScene: an ordered list built by insertion from
 * the score file, written back line by line, extended on ENTER, and the
 * high score read from the file.
 */
module Scores {
  import opened Wrappers
  import opened ScoreLines
  import Game

  /** Non-increasing score order. */
  predicate Sorted(l: seq<Entry>)
  {
    forall i, j :: 0 <= i < j < |l| ==> l[i].score >= l[j].score
  }

  /** Where loadScores inserts a score: the first index whose score is strictly less. */
  function InsertIndex(l: seq<Entry>, score: int): (k: nat)
    ensures k <= |l|
    ensures forall i :: 0 <= i < k ==> l[i].score >= score
    ensures k < |l| ==> l[k].score < score
  {
    if |l| == 0 || l[0].score < score then 0
    else 1 + InsertIndex(l[1..], score)
  }

  /** The list after one insertion: one entry more, e at the insertion point, the same entries otherwise. */
  function Insert(l: seq<Entry>, e: Entry): (m: seq<Entry>)
    ensures |m| == |l| + 1 && m[InsertIndex(l, e.score)] == e
    ensures multiset(m) == multiset(l) + multiset{e}
  {
    var k := InsertIndex(l, e.score);
    assert l == l[..k] + l[k..];
    l[..k] + [e] + l[k..]
  }

  /** a occurs in b in order, possibly with other entries in between. */
  predicate Embeds(a: seq<Entry>, b: seq<Entry>)
    decreases |b|
  {
    |a| == 0 || (|b| > 0 && ((a[0] == b[0] && Embeds(a[1..], b[1..])) || Embeds(a, b[1..])))
  }

  lemma {:induction false} EmbedsRefl(a: seq<Entry>)
    ensures Embeds(a, a)
  {
    if |a| > 0 {
      EmbedsRefl(a[1..]);
    }
  }

  lemma {:induction false} EmbedsTrans(a: seq<Entry>, b: seq<Entry>, c: seq<Entry>)
    requires Embeds(a, b) && Embeds(b, c)
    ensures Embeds(a, c)
    decreases |c|
  {
    if |a| == 0 {
    } else if Embeds(b, c[1..]) {
      EmbedsTrans(a, b, c[1..]);
    } else {
      assert b[0] == c[0] && Embeds(b[1..], c[1..]);
      if a[0] == b[0] && Embeds(a[1..], b[1..]) {
        EmbedsTrans(a[1..], b[1..], c[1..]);
      } else {
        EmbedsTrans(a, b[1..], c[1..]);
      }
    }
  }

  /** Putting e at position k keeps the other entries in order. */
  lemma {:induction false} EmbedsSplice(l: seq<Entry>, k: nat, e: Entry)
    requires k <= |l|
    ensures Embeds(l, l[..k] + [e] + l[k..])
  {
    var m := l[..k] + [e] + l[k..];
    if k == 0 {
      assert m[1..] == l;
      EmbedsRefl(l);
    } else {
      EmbedsSplice(l[1..], k - 1, e);
      assert m[0] == l[0];
      assert m[1..] == l[1..][..k - 1] + [e] + l[1..][k - 1..];
    }
  }

  /** Where each entry of the old list goes in the new one. */
  lemma InsertPositions(l: seq<Entry>, e: Entry)
    ensures var m := Insert(l, e); var k := InsertIndex(l, e.score);
      && |m| == |l| + 1 && m[k] == e
      && (forall i :: 0 <= i < k ==> m[i] == l[i])
      && (forall i :: k < i < |m| ==> m[i] == l[i - 1])
  {
  }

  /** Taking the new entry out again gives the old list. */
  lemma InsertRemove(l: seq<Entry>, e: Entry)
    ensures var m := Insert(l, e); var k := InsertIndex(l, e.score);
      k + 1 <= |m| && m[..k] + m[k + 1..] == l
  {
    var k := InsertIndex(l, e.score);
    var front, back := l[..k], l[k..];
    var m := front + [e] + back;
    assert Insert(l, e) == m;
    assert |front| == k && |m| == |l| + 1;
    assert m[..k] == front;
    assert m[k + 1..] == back;
    assert front + back == l;
  }

  /** In a sorted list, an entry scoring the same as the new one ends up before it. */
  lemma InsertTies(l: seq<Entry>, e: Entry)
    requires Sorted(l)
    ensures forall i :: 0 <= i < |l| && l[i].score == e.score ==> i < InsertIndex(l, e.score)
  {
    var k := InsertIndex(l, e.score);
    forall i | 0 <= i < |l| && l[i].score == e.score ensures i < k {
      if k <= i {
        assert false;
      }
    }
  }

  /** What one insertion does, as loadScores promises it. */
  lemma InsertLaws(l: seq<Entry>, e: Entry)
    ensures |Insert(l, e)| == |l| + 1
    ensures Insert(l, e)[InsertIndex(l, e.score)] == e
    ensures Insert(l, e)[..InsertIndex(l, e.score)] + Insert(l, e)[InsertIndex(l, e.score) + 1..] == l
    ensures Embeds(l, Insert(l, e))
    ensures Sorted(l) ==> Sorted(Insert(l, e))
    ensures Sorted(l) ==> forall i :: 0 <= i < |l| && l[i].score == e.score ==> i < InsertIndex(l, e.score)
  {
    InsertPositions(l, e);
    InsertRemove(l, e);
    EmbedsSplice(l, InsertIndex(l, e.score), e);
    if Sorted(l) {
      InsertSorted(l, e);
      InsertTies(l, e);
    }
  }

  /** Insertion at InsertIndex keeps the order non-increasing. */
  lemma InsertSorted(l: seq<Entry>, e: Entry)
    requires Sorted(l)
    ensures Sorted(Insert(l, e))
  {
    var m := Insert(l, e);
    var k := InsertIndex(l, e.score);
    InsertPositions(l, e);
    forall i, j | 0 <= i < j < |m| ensures m[i].score >= m[j].score {
      if j < k {
        assert m[i] == l[i] && m[j] == l[j];
      } else if j == k {
        assert m[i] == l[i];
      } else if i == k {
        assert m[j] == l[j - 1];
        assert k < |l| ==> l[k].score < e.score;
      } else if i < k {
        assert m[i] == l[i] && m[j] == l[j - 1];
      } else {
        assert m[i] == l[i - 1] && m[j] == l[j - 1];
      }
    }
  }

  /** One step of loadScores: a line that reads is inserted and the rest is read after it. */
  lemma LoadStep(scores: seq<Entry>, read: seq<Option<Entry>>, k: nat, e: Entry)
    requires k < |read| && read[k] == Some(e)
    ensures Load(scores, read[k..]) == Load(Insert(scores, e), read[k + 1..])
  {
    assert read[k..][0] == Some(e) && read[k..][1..] == read[k + 1..];
  }

  /** The inner scan of loadScores. */
  method FindInsertIndex(l: seq<Entry>, score: int) returns (i: nat)
    ensures i == InsertIndex(l, score)
  {
    i := 0;
    while i < |l|
      invariant i <= |l|
      invariant forall m :: 0 <= m < i ==> l[m].score >= score
    {
      if l[i].score < score {
        break;
      }
      i := i + 1;
    }
  }

  /** Each line of the file as it reads: an entry, or None for a malformed line. */
  function ReadLines(lines: seq<string>): (read: seq<Option<Entry>>)
    ensures |read| == |lines|
    ensures forall k :: 0 <= k < |lines| ==> read[k] == ParseLine(lines[k])
  {
    seq(|lines|, k requires 0 <= k < |lines| => ParseLine(lines[k]))
  }

  /** Every line read as an entry. */
  predicate AllRead(read: seq<Option<Entry>>)
  {
    forall k :: 0 <= k < |read| ==> read[k].Some?
  }

  lemma AllReadFront(read: seq<Option<Entry>>)
    requires |read| > 0
    ensures AllRead(read) <==> read[0].Some? && AllRead(read[1..])
  {
    assert forall k :: 1 <= k < |read| ==> read[k] == read[1..][k - 1];
  }

  lemma AllReadBack(read: seq<Option<Entry>>)
    requires |read| > 0
    ensures AllRead(read) <==> AllRead(read[..|read| - 1]) && read[|read| - 1].Some?
  {
    assert forall k :: 0 <= k < |read| - 1 ==> read[k] == read[..|read| - 1][k];
  }

  /** The entries read, as a multiset; a malformed line adds nothing. */
  function ReadEntries(read: seq<Option<Entry>>): (m: multiset<Entry>)
    ensures |m| <= |read|
    decreases |read|
  {
    if |read| == 0 then multiset{}
    else (if read[0].Some? then multiset{read[0].value} else multiset{}) + ReadEntries(read[1..])
  }

  /** Lines that read as the entries of l, in order, hold exactly the entries of l. */
  lemma {:induction false} ReadEntriesOf(read: seq<Option<Entry>>, l: seq<Entry>)
    requires |read| == |l|
    requires forall k :: 0 <= k < |l| ==> read[k] == Some(l[k])
    ensures ReadEntries(read) == multiset(l)
    decreases |l|
  {
    if |l| > 0 {
      assert forall k :: 0 <= k < |l| - 1 ==> read[1..][k] == read[k + 1] && l[1..][k] == l[k + 1];
      ReadEntriesOf(read[1..], l[1..]);
      assert l == [l[0]] + l[1..];
    }
  }

  /** The outcome of reading a score file: the list, and whether every line was read. */
  datatype Loaded = Loaded(scores: seq<Entry>, ok: bool)

  /**
   * loadScores over the lines of the file, as read: each entry is inserted
   * in turn; the first malformed line stops the reading with an error, and
   * the entries inserted before it stay.
   */
  function Load(l: seq<Entry>, read: seq<Option<Entry>>): (r: Loaded)
    ensures |l| <= |r.scores| <= |l| + |read|
    ensures r.ok ==> |r.scores| == |l| + |read|
    decreases |read|
  {
    if |read| == 0 then Loaded(l, true)
    else
      match read[0]
      case None => Loaded(l, false)
      case Some(e) => Load(Insert(l, e), read[1..])
  }

  /** Reading succeeds exactly when every line reads. */
  lemma {:induction false} LoadOk(l: seq<Entry>, read: seq<Option<Entry>>)
    ensures Load(l, read).ok <==> AllRead(read)
    decreases |read|
  {
    if |read| > 0 {
      AllReadFront(read);
      if read[0].Some? {
        LoadOk(Insert(l, read[0].value), read[1..]);
      }
    }
  }

  lemma {:induction false} LoadSorted(l: seq<Entry>, read: seq<Option<Entry>>)
    requires Sorted(l)
    ensures Sorted(Load(l, read).scores)
    decreases |read|
  {
    if |read| > 0 && read[0].Some? {
      InsertSorted(l, read[0].value);
      LoadSorted(Insert(l, read[0].value), read[1..]);
    }
  }

  /** A file whose every line reads adds exactly its entries to the table, no more and no fewer. */
  lemma {:induction false} LoadMultiset(l: seq<Entry>, read: seq<Option<Entry>>)
    requires AllRead(read)
    ensures multiset(Load(l, read).scores) == multiset(l) + ReadEntries(read)
    decreases |read|
  {
    if |read| > 0 {
      AllReadFront(read);
      LoadMultiset(Insert(l, read[0].value), read[1..]);
    }
  }

  lemma {:induction false} LoadEmbeds(l: seq<Entry>, read: seq<Option<Entry>>)
    ensures Embeds(l, Load(l, read).scores)
    decreases |read|
  {
    if |read| > 0 && read[0].Some? {
      var e := read[0].value;
      EmbedsSplice(l, InsertIndex(l, e.score), e);
      LoadEmbeds(Insert(l, e), read[1..]);
      EmbedsTrans(l, Insert(l, e), Load(l, read).scores);
    } else {
      EmbedsRefl(l);
    }
  }

  /**
   * Reading keeps the list sorted, grows it by one entry per line read,
   * succeeds exactly when every line reads, then holds the old entries and
   * the entries read, and keeps the old entries in their order.
   */
  lemma LoadLaws(l: seq<Entry>, lines: seq<string>)
    ensures Sorted(l) ==> Sorted(Load(l, ReadLines(lines)).scores)
    ensures |l| <= |Load(l, ReadLines(lines)).scores| <= |l| + |lines|
    ensures Load(l, ReadLines(lines)).ok ==> |Load(l, ReadLines(lines)).scores| == |l| + |lines|
    ensures Load(l, ReadLines(lines)).ok <==> forall k :: 0 <= k < |lines| ==> ParseLine(lines[k]).Some?
    ensures Load(l, ReadLines(lines)).ok ==> multiset(Load(l, ReadLines(lines)).scores) == multiset(l) + ReadEntries(ReadLines(lines))
    ensures Embeds(l, Load(l, ReadLines(lines)).scores)
  {
    var read := ReadLines(lines);
    if Sorted(l) {
      LoadSorted(l, read);
    }
    LoadOk(l, read);
    if AllRead(read) {
      LoadMultiset(l, read);
    }
    LoadEmbeds(l, read);
  }

  /** The lines writeScores emits: one per entry, in list order. */
  function WriteLines(l: seq<Entry>): (r: seq<string>)
    ensures |r| == |l|
    ensures forall k :: 0 <= k < |l| ==> r[k] == FormatEntry(l[k])
  {
    seq(|l|, k requires 0 <= k < |l| => FormatEntry(l[k]))
  }

  /** An entry that can be written and read back: a name with no dash and no line terminator, a score in range. */
  predicate Storable(e: Entry)
  {
    '-' !in e.name && NoLineTerminator(e.name) && 0 <= e.score <= IntMax
  }

  /** Appending a score no higher than any before it lands at the end. */
  lemma InsertAtEnd(p: seq<Entry>, e: Entry)
    requires forall i :: 0 <= i < |p| ==> p[i].score >= e.score
    ensures Insert(p, e) == p + [e]
  {
    assert InsertIndex(p, e.score) == |p|;
  }

  lemma MoveFirst(p: seq<Entry>, l: seq<Entry>)
    requires |l| > 0
    ensures (p + [l[0]]) + l[1..] == p + l
  {
    assert l == [l[0]] + l[1..];
  }

  /** Moving the first entry of l to the end of p keeps the conditions of LoadParsed. */
  lemma LoadParsedShift(p: seq<Entry>, l: seq<Entry>)
    requires |l| > 0 && Sorted(l)
    requires forall i :: 0 <= i < |p| ==> p[i].score >= l[0].score
    ensures Sorted(l[1..])
    ensures |l| > 1 ==> forall i :: 0 <= i < |p| + 1 ==> (p + [l[0]])[i].score >= l[1].score
  {
    var p' := p + [l[0]];
    assert forall k :: 0 <= k < |l| - 1 ==> l[1..][k] == l[k + 1];
    if |l| > 1 {
      assert l[0].score >= l[1].score;
      forall i | 0 <= i < |p'| ensures p'[i].score >= l[1].score {
        if i < |p| {
          assert p'[i] == p[i];
        }
      }
    }
  }

  /**
   * Reading the entries of a sorted list l, whose scores are no higher than
   * any in p, appends l to p.
   */
  lemma {:induction false} LoadParsed(p: seq<Entry>, read: seq<Option<Entry>>, l: seq<Entry>)
    requires |read| == |l| && Sorted(l)
    requires forall k :: 0 <= k < |l| ==> read[k] == Some(l[k])
    requires |l| > 0 ==> forall i :: 0 <= i < |p| ==> p[i].score >= l[0].score
    ensures Load(p, read) == Loaded(p + l, true)
    decreases |l|
  {
    if |l| == 0 {
      assert p + l == p;
    } else {
      InsertAtEnd(p, l[0]);
      LoadParsedShift(p, l);
      assert forall k :: 0 <= k < |l| - 1 ==> read[1..][k] == read[k + 1] && l[1..][k] == l[k + 1];
      LoadParsed(p + [l[0]], read[1..], l[1..]);
      MoveFirst(p, l);
    }
  }

  /** Each line of the text writeScores writes reads back as its entry. */
  lemma WrittenLinesRead(l: seq<Entry>)
    requires forall k :: 0 <= k < |l| ==> Storable(l[k])
    ensures |ReadLines(ScannerLines(FileText(WriteLines(l))))| == |l|
    ensures forall k :: 0 <= k < |l| ==> ReadLines(ScannerLines(FileText(WriteLines(l))))[k] == Some(l[k])
  {
    var lines := WriteLines(l);
    forall k | 0 <= k < |lines| ensures NoLineTerminator(lines[k]) {
      FormatEntryOneLine(l[k]);
    }
    ScannerLinesRoundTrip(lines);
    forall k | 0 <= k < |l| ensures ParseLine(lines[k]) == Some(l[k]) {
      FormatParseRoundTrip(l[k]);
    }
  }

  /** The text writeScores writes, loadScores reads back into an empty table unchanged. */
  lemma WriteLoadRoundTrip(l: seq<Entry>)
    requires Sorted(l)
    requires forall k :: 0 <= k < |l| ==> Storable(l[k])
    ensures Load([], ReadLines(ScannerLines(FileText(WriteLines(l))))) == Loaded(l, true)
  {
    WrittenLinesRead(l);
    LoadParsed([], ReadLines(ScannerLines(FileText(WriteLines(l)))), l);
    assert [] + l == l;
  }

  /**
   * The text writeScores writes for any list, sorted or not, loads in full
   * into an empty table, sorted, with the same entries.
   */
  lemma WriteLoadUnsorted(l: seq<Entry>)
    requires forall k :: 0 <= k < |l| ==> Storable(l[k])
    ensures Load([], ReadLines(ScannerLines(FileText(WriteLines(l))))).ok
    ensures Sorted(Load([], ReadLines(ScannerLines(FileText(WriteLines(l))))).scores)
    ensures multiset(Load([], ReadLines(ScannerLines(FileText(WriteLines(l))))).scores) == multiset(l)
  {
    var read := ReadLines(ScannerLines(FileText(WriteLines(l))));
    WrittenLinesRead(l);
    LoadOk([], read);
    LoadSorted([], read);
    LoadMultiset([], read);
    ReadEntriesOf(read, l);
  }

  /**
   * After ENTER appends the player's entry to a table and writes it, the
   * file loads into an empty table sorted, holding the old entries and the
   * new one.
   */
  lemma EnterReload(l: seq<Entry>, e: Entry)
    requires forall k :: 0 <= k < |l| ==> Storable(l[k])
    requires Storable(e)
    ensures Load([], ReadLines(ScannerLines(FileText(WriteLines(l + [e]))))).ok
    ensures Sorted(Load([], ReadLines(ScannerLines(FileText(WriteLines(l + [e]))))).scores)
    ensures multiset(Load([], ReadLines(ScannerLines(FileText(WriteLines(l + [e]))))).scores) == multiset(l) + multiset{e}
  {
    var m := l + [e];
    assert forall k :: 0 <= k < |m| ==> m[k] == (if k < |l| then l[k] else e);
    WriteLoadUnsorted(m);
  }

  /**
   * A name holding a dash and U+2028 is read back as two made-up entries,
   * and the file loads without an error.
   */
  lemma DashedSeparatorNameForges()
    ensures Load([], ReadLines(ScannerLines(FileText(WriteLines([Entry("x-3\U{2028}y", 5)]))))) == Loaded([Entry("y", 5), Entry("x", 3)], true)
  {
    var e := Entry("x-3\U{2028}y", 5);
    assert WriteLines([e]) == [FormatEntry(e)];
    DashedSeparatorNameSplits();
    DashedLinesRead();
    DashedEntriesLoad();
  }

  /** Those two lines read as the entries 3 for "x" and 5 for "y". */
  lemma DashedLinesRead()
    ensures ReadLines(["x-3", "y-5"]) == [Some(Entry("x", 3)), Some(Entry("y", 5))]
  {
    DashedHalvesRead();
  }

  /** Reading 3 for "x", then 5 for "y", puts "y" first. */
  lemma DashedEntriesLoad()
    ensures Load([], [Some(Entry("x", 3)), Some(Entry("y", 5))]) == Loaded([Entry("y", 5), Entry("x", 3)], true)
  {
    var x, y := Entry("x", 3), Entry("y", 5);
    assert Load([], [Some(x), Some(y)]) == Load([x], [Some(y)]) by {
      assert Insert([], x) == [x];
      assert [Some(x), Some(y)][1..] == [Some(y)];
    }
    assert Load([x], [Some(y)]) == Loaded([y, x], true) by {
      assert InsertIndex([x], 5) == 0;
      assert Insert([x], y) == [y, x];
      assert [Some(y)][1..] == [];
    }
  }

  /**
   * A name holding the separator U+2028 is written on two lines, and the
   * file no longer loads.
   */
  lemma SeparatorNameBreaksTable()
    ensures Load([], ReadLines(ScannerLines(FileText(WriteLines([Entry("a\U{2028}b", 5)]))))) == Loaded([], false)
  {
    var e := Entry("a\U{2028}b", 5);
    assert WriteLines([e]) == [FormatEntry(e)];
    SeparatorNameSplits();
    LoneNameUnreadable();
    var read := ReadLines(["a", "b-5"]);
    assert read[0] == None;
  }

  /** The larger of 0 and every score. */
  function MaxScore(scores: seq<int>): (m: int)
    ensures m >= 0
    ensures forall k :: 0 <= k < |scores| ==> scores[k] <= m
    ensures m == 0 || exists k :: 0 <= k < |scores| && scores[k] == m
    ensures |scores| == 0 ==> m == 0
  {
    if |scores| == 0 then 0
    else
      var m := MaxScore(scores[..|scores| - 1]);
      var last := scores[|scores| - 1];
      assert forall k :: 0 <= k < |scores| - 1 ==> scores[..|scores| - 1][k] == scores[k];
      if m >= last then m else last
  }

  lemma MaxScoreSnoc(scores: seq<int>, x: int)
    ensures MaxScore(scores + [x]) == if MaxScore(scores) >= x then MaxScore(scores) else x
  {
    assert (scores + [x])[..|scores|] == scores;
  }

  /** The scores of the lines read, in order; None when some line is malformed. */
  function FileScores(read: seq<Option<Entry>>): (r: Option<seq<int>>)
    ensures r.Some? ==> |r.value| == |read|
  {
    if |read| == 0 then Some([])
    else
      match FileScores(read[..|read| - 1])
      case None => None
      case Some(scores) =>
        match read[|read| - 1]
        case None => None
        case Some(e) => Some(scores + [e.score])
  }

  /** FileScores succeeds exactly when every line reads. */
  lemma {:induction false} FileScoresRead(read: seq<Option<Entry>>)
    ensures FileScores(read).Some? <==> AllRead(read)
    decreases |read|
  {
    if |read| > 0 {
      AllReadBack(read);
      FileScoresRead(read[..|read| - 1]);
    }
  }

  /** The k-th score is the score of the k-th line. */
  lemma {:induction false} FileScoresAt(read: seq<Option<Entry>>, k: int)
    requires AllRead(read) && 0 <= k < |read|
    ensures FileScores(read).Some? && |FileScores(read).value| == |read|
    ensures FileScores(read).value[k] == read[k].value.score
    decreases |read|
  {
    var front := read[..|read| - 1];
    AllReadBack(read);
    FileScoresRead(front);
    if k < |front| {
      FileScoresAt(front, k);
      assert front[k] == read[k];
    }
  }

  /** FileScores lists the score of every line of the file, and fails exactly when some line is malformed. */
  lemma FileScoresLaws(lines: seq<string>)
    ensures FileScores(ReadLines(lines)).Some? <==> forall k :: 0 <= k < |lines| ==> ParseLine(lines[k]).Some?
    ensures FileScores(ReadLines(lines)).Some? ==> |FileScores(ReadLines(lines)).value| == |lines|
    ensures FileScores(ReadLines(lines)).Some? ==>
      forall k :: 0 <= k < |lines| ==> FileScores(ReadLines(lines)).value[k] == ParseLine(lines[k]).value.score
  {
    var read := ReadLines(lines);
    FileScoresRead(read);
    if FileScores(read).Some? {
      forall k | 0 <= k < |lines| ensures FileScores(read).value[k] == read[k].value.score {
        FileScoresAt(read, k);
      }
    }
  }

  /** Reading one line more appends its score. */
  lemma FileScoresSnoc(read: seq<Option<Entry>>, k: nat)
    requires k < |read| && FileScores(read[..k]).Some? && read[k].Some?
    ensures FileScores(read[..k + 1]) == Some(FileScores(read[..k]).value + [read[k].value.score])
  {
    assert read[..k + 1][..k] == read[..k];
  }

  /** Once a prefix of the file fails to read, the whole file does. */
  lemma {:induction false} FileScoresNoneStays(read: seq<Option<Entry>>, k: nat)
    requires k <= |read| && FileScores(read[..k]) == None
    ensures FileScores(read) == None
    decreases |read| - k
  {
    if k < |read| {
      assert read[..k + 1][..k] == read[..k];
      FileScoresNoneStays(read, k + 1);
    } else {
      assert read[..k] == read;
    }
  }

  /**
   * getHighScore: the larger of 0 and every score in the file; a malformed
   * line makes it fail (None).
   */
  method HighScore(file: string) returns (r: Option<int>)
    ensures r.Some? <==> FileScores(ReadLines(ScannerLines(file))).Some?
    ensures r.Some? ==> r.value == MaxScore(FileScores(ReadLines(ScannerLines(file))).value)
  {
    r := MaxLineScore(ScannerLines(file));
  }

  /** The loop of getHighScore over the lines of the file. */
  method MaxLineScore(lines: seq<string>) returns (r: Option<int>)
    ensures r.Some? <==> FileScores(ReadLines(lines)).Some?
    ensures r.Some? ==> r.value == MaxScore(FileScores(ReadLines(lines)).value)
  {
    ghost var read := ReadLines(lines);
    var returnValue := 0;
    for k := 0 to |lines|
      invariant FileScores(read[..k]).Some?
      invariant returnValue == MaxScore(FileScores(read[..k]).value)
    {
      var entry := ParseLine(lines[k]);
      if entry.None? {
        assert read[..k + 1][..k] == read[..k];
        FileScoresNoneStays(read, k + 1);
        return None;
      }
      FileScoresSnoc(read, k);
      MaxScoreSnoc(FileScores(read[..k]).value, entry.value.score);
      returnValue := if returnValue >= entry.value.score then returnValue else entry.value.score;
    }
    assert read[..|lines|] == read;
    r := Some(returnValue);
  }

  /** The high score of an empty file is 0. */
  lemma HighScoreEmpty()
    ensures FileScores(ReadLines([])) == Some([]) && MaxScore([]) == 0
  {
  }

  /** Writing one entry more writes one line more. */
  lemma WriteLinesPrefix(l: seq<Entry>, k: nat)
    requires k < |l|
    ensures WriteLines(l[..k + 1]) == WriteLines(l[..k]) + [FormatEntry(l[k])]
  {
    var longer, shorter := WriteLines(l[..k + 1]), WriteLines(l[..k]);
    forall i | 0 <= i < k + 1 ensures longer[i] == (shorter + [FormatEntry(l[k])])[i] {
      assert l[..k + 1][i] == l[i];
      if i < k {
        assert l[..k][i] == l[i];
      }
    }
  }

  /** The text of one entry more is the old text, that entry's line and a newline. */
  lemma WriteLinesSnoc(l: seq<Entry>, k: nat)
    requires k < |l|
    ensures FileText(WriteLines(l[..k + 1])) == FileText(WriteLines(l[..k])) + FormatEntry(l[k]) + "\n"
  {
    WriteLinesPrefix(l, k);
    FileTextSnoc(WriteLines(l[..k]), FormatEntry(l[k]));
  }

  /** The text of a table, one formatted line and a newline per entry (the loop of writeScores). */
  method FormatFile(l: seq<Entry>) returns (text: string)
    ensures text == FileText(WriteLines(l))
  {
    text := "";
    for k := 0 to |l|
      invariant text == FileText(WriteLines(l[..k]))
    {
      WriteLinesSnoc(l, k);
      text := text + FormatEntry(l[k]) + "\n";
    }
    assert l[..|l|] == l;
  }

  class ScoresScene {
    /** The game whose final score is recorded. */
    const game: Game.Game
    /** The table shown on the scene. */
    var localScores: seq<Entry>
    /** The text of the score file. */
    var file: string

    constructor (game: Game.Game, file: string)
      ensures this.game == game && this.file == file && localScores == []
    {
      this.game := game;
      this.file := file;
      localScores := [];
    }

    /**
     * loadScores: insert every line of the file into the table; false when a
     * line is malformed, where the Java code throws.
     */
    method LoadScores() returns (ok: bool)
      modifies this`localScores
      ensures Loaded(localScores, ok) == Load(old(localScores), ReadLines(ScannerLines(file)))
    {
      var lines, scores := ScannerLines(file), localScores;
      ghost var read := ReadLines(lines);
      var k := 0;
      while k < |lines|
        invariant k <= |lines|
        invariant Load(scores, read[k..]) == Load(old(localScores), read)
      {
        var entry := ParseLine(lines[k]);
        if entry.None? {
          localScores := scores;
          return false;
        }
        var i := FindInsertIndex(scores, entry.value.score);
        LoadStep(scores, read, k, entry.value);
        scores := scores[..i] + [entry.value] + scores[i..];
        k := k + 1;
      }
      localScores := scores;
      ok := true;
    }

    /** writeScores: the file becomes one line per entry of the table, in order. */
    method WriteScores()
      modifies this`file
      ensures file == FileText(WriteLines(localScores))
    {
      file := FormatFile(localScores);
    }

    /** ENTER: append the player's name and the game's score at the end, unsorted, and write the file. */
    method PressEnter(playerName: string)
      modifies this`localScores, this`file
      ensures localScores == old(localScores) + [Entry(playerName, game.score)]
      ensures file == FileText(WriteLines(localScores))
    {
      localScores := localScores + [Entry(playerName, game.score)];
      WriteScores();
    }
  }
}
