/** The CSV importer: import_csv in import.c (with the overwrite flag, and
    category.c's external classifier) and its earlier copy in
    budget_tracker.c (no overwrite, budget_tracker.c's interactive
    classifier). Each line of the bank's export is parsed, credits are
    skipped, the (date, charge, description) key is looked up, and the row is
    inserted with a category, left alone, or has its category rewritten. */
module Import {
  import opened Common
  import opened Dates
  import opened Csv
  import opened Store
  import opened Rules
  import opened Assistant

  /** Which get_category_id the importer is linked with. */
  datatype Classifier = Interactive(re: Regex) | External(hasApiKey: bool)

  /** What the outside world does while one line is classified: the
      operator's menu answer, whether the category query fails to prepare,
      and what the external service does. */
  datatype Outside = Outside(answer: Answer, queryFails: bool, service: Service)

  /** Statements that fail: the existence check of the lines in checkFails
      and the insert or update of the lines in writeFails. */
  datatype Faults = Faults(checkFails: set<nat>, writeFails: set<nat>)

  const NoFaults := Faults({}, {})

  /** The outside world at line i (lines beyond the given ones see a quiet world). */
  function OutsideAt(outside: seq<Outside>, i: nat): Outside
  {
    if i < |outside| then outside[i] else Outside(Answer(0, []), false, Service(false, false, None))
  }

  /** get_category_id as the importer sees it: the id and the database after
      it (only the interactive classifier can add a category). */
  function ClassifyWith(db: Db, mode: Classifier, description: string, o: Outside): (r: (int, Db))
    requires ValidDb(db)
    ensures ValidDb(r.1)
    ensures r.1.transactions == db.transactions && r.1.examples == db.examples && r.1.budgets == db.budgets
  {
    match mode
    case Interactive(re) =>
      ClassifyResult(db.categories, re, description, o.answer, o.queryFails);
      var (id, cs) := Classify(db.categories, re, description, o.answer, o.queryFails);
      (id, db.(categories := cs))
    case External(hasApiKey) =>
      (ExternalClassify(db, description, hasApiKey, o.queryFails, o.service), db)
  }

  /** The state after one line, and whether the loop stops there. */
  datatype Step = Step(db: Db, stop: bool)

  function KeyOfRecord(r: Record): Key
  {
    Key(r.date, r.charge, r.description)
  }

  /** Inserting a row whose key is absent keeps the keys distinct. */
  lemma AppendFreshKey(ts: seq<Transaction>, t: Transaction)
    requires NoDuplicateKeys(ts) && !HasKey(ts, KeyOf(t))
    ensures NoDuplicateKeys(ts + [t])
  {
    var ts' := ts + [t];
    forall i, j | 0 <= i < j < |ts'| ensures KeyOf(ts'[i]) != KeyOf(ts'[j]) {
      if j == |ts| {
        assert ts'[i] == ts[i];
      } else {
        assert ts'[i] == ts[i] && ts'[j] == ts[j];
      }
    }
  }

  /** A reading the parser can produce: its date is one strftime writes. */
  ghost predicate Readable(rec: Option<Record>)
  {
    rec.Some? ==> WrittenDate(rec.value.date)
  }

  ghost predicate AllReadable(recs: seq<Option<Record>>)
  {
    forall j :: 0 <= j < |recs| ==> Readable(recs[j])
  }

  /** One pass of the `while (fgets(..))` body (import.c:46-107) on the
      line's reading: None for a line the source skips as unreadable. */
  function ImportLine(db: Db, rec: Option<Record>, overwrite: bool, mode: Classifier, o: Outside,
                      checkFails: bool, writeFails: bool): (s: Step)
    requires ValidDb(db) && Readable(rec)
    ensures ValidDb(s.db)
  {
    match rec
    case None => Step(db, false)
    case Some(r) =>
      if r.charge > 0.0 then Step(db, false)
      else if checkFails then Step(db, false)
      else
        var k := KeyOfRecord(r);
        if !HasKey(db.transactions, k) then
          var (id, db1) := if r.charge < 0.0 then ClassifyWith(db, mode, r.description, o) else (1, db);
          if writeFails then Step(db1, true)
          else
            var t := Transaction(r.date, r.charge, r.description, id);
            AppendFreshKey(db1.transactions, t);
            Step(db1.(transactions := db1.transactions + [t]), false)
        else if overwrite then
          var (id, db1) := ClassifyWith(db, mode, r.description, o);
          if writeFails then Step(db1, true)
          else
            SetCategoryKeepsKeys(db1.transactions, k, id);
            Step(db1.(transactions := SetCategory(db1.transactions, k, id)), false)
        else Step(db, false)
  }

  /** The importer over lines i.. of the file, given each line's reading. */
  function ImportFrom(db: Db, recs: seq<Option<Record>>, i: nat, overwrite: bool, mode: Classifier,
                      outside: seq<Outside>, faults: Faults): (r: Db)
    requires ValidDb(db) && AllReadable(recs) && i <= |recs|
    ensures ValidDb(r)
    decreases |recs| - i
  {
    if i == |recs| then db
    else
      var s := ImportLine(db, recs[i], overwrite, mode, OutsideAt(outside, i),
                          i in faults.checkFails, i in faults.writeFails);
      if s.stop then s.db else ImportFrom(s.db, recs, i + 1, overwrite, mode, outside, faults)
  }

  /** How each line of the file reads. */
  function Records(lines: seq<string>): (recs: seq<Option<Record>>)
    ensures |recs| == |lines| && AllReadable(recs)
  {
    seq(|lines|, i requires 0 <= i < |lines| => ParseRecord(lines[i]))
  }

  lemma RecordAt(lines: seq<string>, i: nat, line: string)
    requires i < |lines| && lines[i] == line
    ensures Records(lines)[i] == ParseRecord(line)
  {
  }

  /** import_csv over a whole file's text. */
  function ImportFile(db: Db, text: string, overwrite: bool, mode: Classifier,
                      outside: seq<Outside>, faults: Faults): Db
    requires ValidDb(db)
  {
    ImportFrom(db, Records(ReadLines(text)), 0, overwrite, mode, outside, faults)
  }

  /** A line the importer stores: it reads, and is a debit or a zero charge. */
  predicate Importable(rec: Option<Record>)
  {
    rec.Some? && rec.value.charge <= 0.0
  }

  // ---- properties of one line ----

  /** A credit changes nothing: no classifier runs and nothing is written. */
  lemma CreditSkipped(db: Db, r: Record, overwrite: bool, mode: Classifier, o: Outside,
                      checkFails: bool, writeFails: bool)
    requires ValidDb(db) && WrittenDate(r.date) && r.charge > 0.0
    ensures ImportLine(db, Some(r), overwrite, mode, o, checkFails, writeFails) == Step(db, false)
  {
  }

  /** A line whose key is new is inserted once: its category is 1 for a zero
      charge and otherwise whatever the classifier returned, -1 included. */
  lemma FreshLineInserted(db: Db, r: Record, overwrite: bool, mode: Classifier, o: Outside)
    requires ValidDb(db) && WrittenDate(r.date)
    requires r.charge <= 0.0 && !HasKey(db.transactions, KeyOfRecord(r))
    ensures var s := ImportLine(db, Some(r), overwrite, mode, o, false, false);
      var id := if r.charge == 0.0 then 1 else ClassifyWith(db, mode, r.description, o).0;
      && !s.stop
      && s.db.transactions == db.transactions + [Transaction(r.date, r.charge, r.description, id)]
      && HasKey(s.db.transactions, KeyOfRecord(r))
  {
    var s := ImportLine(db, Some(r), overwrite, mode, o, false, false);
    assert KeyOf(s.db.transactions[|db.transactions|]) == KeyOfRecord(r);
  }

  /** A line whose key exists: without overwrite nothing happens; with
      overwrite only the category of the matching row changes. */
  lemma ExistingLine(db: Db, r: Record, overwrite: bool, mode: Classifier, o: Outside)
    requires ValidDb(db) && WrittenDate(r.date)
    requires r.charge <= 0.0 && HasKey(db.transactions, KeyOfRecord(r))
    ensures var s := ImportLine(db, Some(r), overwrite, mode, o, false, false);
      && !s.stop
      && (!overwrite ==> s.db == db)
      && |s.db.transactions| == |db.transactions|
      && (forall j :: 0 <= j < |db.transactions| ==> KeyOf(s.db.transactions[j]) == KeyOf(db.transactions[j]))
      && (overwrite ==> forall j :: 0 <= j < |db.transactions| ==>
            s.db.transactions[j].categoryId ==
              if KeyOf(db.transactions[j]) == KeyOfRecord(r) then ClassifyWith(db, mode, r.description, o).0
              else db.transactions[j].categoryId)
  {
    if overwrite {
      var (id, db1) := ClassifyWith(db, mode, r.description, o);
      SetCategoryKeepsKeys(db1.transactions, KeyOfRecord(r), id);
    }
  }

  lemma LineKeepsRows(db: Db, rec: Option<Record>, overwrite: bool, mode: Classifier, o: Outside,
                      checkFails: bool, writeFails: bool)
    requires ValidDb(db) && Readable(rec)
    ensures var s := ImportLine(db, rec, overwrite, mode, o, checkFails, writeFails);
      && |db.transactions| <= |s.db.transactions|
      && (forall j :: 0 <= j < |db.transactions| ==> KeyOf(s.db.transactions[j]) == KeyOf(db.transactions[j]))
      && (!overwrite ==> s.db.transactions[..|db.transactions|] == db.transactions)
  {
    var s := ImportLine(db, rec, overwrite, mode, o, checkFails, writeFails);
    match rec
    case None =>
    case Some(r) =>
      if r.charge <= 0.0 && !checkFails {
        var k := KeyOfRecord(r);
        if HasKey(db.transactions, k) && overwrite {
          var (id, db1) := ClassifyWith(db, mode, r.description, o);
          SetCategoryKeepsKeys(db1.transactions, k, id);
        } else if !HasKey(db.transactions, k) && !writeFails {
          assert s.db.transactions[..|db.transactions|] == db.transactions;
        }
      }
  }

  /** Without faults an importable line's key is stored after it and the
      loop goes on. */
  lemma LineStoresKey(db: Db, rec: Option<Record>, overwrite: bool, mode: Classifier, o: Outside)
    requires ValidDb(db) && Readable(rec) && Importable(rec)
    ensures var s := ImportLine(db, rec, overwrite, mode, o, false, false);
      !s.stop && HasKey(s.db.transactions, KeyOfRecord(rec.value))
  {
    var k := KeyOfRecord(rec.value);
    if !HasKey(db.transactions, k) {
      FreshLineInserted(db, rec.value, overwrite, mode, o);
    } else {
      var s := ImportLine(db, rec, overwrite, mode, o, false, false);
      ExistingLine(db, rec.value, overwrite, mode, o);
      KeyStays(db.transactions, s.db.transactions, k);
    }
  }

  /** Without overwrite, a line that does not import or whose key is stored
      changes nothing. */
  lemma LineUnchanged(db: Db, rec: Option<Record>, mode: Classifier, o: Outside, checkFails: bool, writeFails: bool)
    requires ValidDb(db) && Readable(rec)
    requires Importable(rec) ==> HasKey(db.transactions, KeyOfRecord(rec.value))
    ensures ImportLine(db, rec, false, mode, o, checkFails, writeFails) == Step(db, false)
  {
  }

  /** A key held by a row that keeps its key stays held. */
  lemma KeyStays(before: seq<Transaction>, after: seq<Transaction>, k: Key)
    requires HasKey(before, k) && |before| <= |after|
    requires forall j :: 0 <= j < |before| ==> KeyOf(after[j]) == KeyOf(before[j])
    ensures HasKey(after, k)
  {
    var j :| 0 <= j < |before| && KeyOf(before[j]) == k;
    assert KeyOf(after[j]) == k;
  }

  // ---- properties of the whole loop ----

  /** A failed existence check skips only its line; a failed insert or
      update ends the import, keeping what was written before it. */
  lemma FaultEffects(db: Db, recs: seq<Option<Record>>, i: nat, overwrite: bool, mode: Classifier,
                     outside: seq<Outside>, faults: Faults)
    requires ValidDb(db) && AllReadable(recs) && i < |recs|
    ensures i in faults.checkFails ==>
      ImportFrom(db, recs, i, overwrite, mode, outside, faults) == ImportFrom(db, recs, i + 1, overwrite, mode, outside, faults)
    ensures var s := ImportLine(db, recs[i], overwrite, mode, OutsideAt(outside, i), i in faults.checkFails, i in faults.writeFails);
      s.stop ==> (i in faults.writeFails && ImportFrom(db, recs, i, overwrite, mode, outside, faults) == s.db
                  && s.db.transactions == db.transactions)
  {
  }

  /** Whatever happens, the rows already stored keep their place and their
      key; without overwrite they are not touched at all. */
  lemma {:induction false} RowsKept(db: Db, recs: seq<Option<Record>>, i: nat, overwrite: bool, mode: Classifier,
                                    outside: seq<Outside>, faults: Faults)
    requires ValidDb(db) && AllReadable(recs) && i <= |recs|
    ensures var r := ImportFrom(db, recs, i, overwrite, mode, outside, faults);
      && |db.transactions| <= |r.transactions|
      && (forall j :: 0 <= j < |db.transactions| ==> KeyOf(r.transactions[j]) == KeyOf(db.transactions[j]))
      && (!overwrite ==> r.transactions[..|db.transactions|] == db.transactions)
    decreases |recs| - i
  {
    if i < |recs| {
      var s := ImportLine(db, recs[i], overwrite, mode, OutsideAt(outside, i),
                          i in faults.checkFails, i in faults.writeFails);
      LineKeepsRows(db, recs[i], overwrite, mode, OutsideAt(outside, i), i in faults.checkFails, i in faults.writeFails);
      if !s.stop {
        RowsKept(s.db, recs, i + 1, overwrite, mode, outside, faults);
      }
    }
  }

  /** Without faults every importable line's key ends up stored, also when
      the file repeats a line. */
  lemma {:induction false} AllKeysStored(db: Db, recs: seq<Option<Record>>, i: nat, overwrite: bool, mode: Classifier,
                                         outside: seq<Outside>)
    requires ValidDb(db) && AllReadable(recs) && i <= |recs|
    ensures var r := ImportFrom(db, recs, i, overwrite, mode, outside, NoFaults);
      forall j :: i <= j < |recs| && Importable(recs[j]) ==> HasKey(r.transactions, KeyOfRecord(recs[j].value))
    decreases |recs| - i
  {
    if i < |recs| {
      var s := ImportLine(db, recs[i], overwrite, mode, OutsideAt(outside, i), false, false);
      var r := ImportFrom(db, recs, i, overwrite, mode, outside, NoFaults);
      NoFaultGoesOn(db, recs, i, overwrite, mode, outside);
      AllKeysStored(s.db, recs, i + 1, overwrite, mode, outside);
      forall j | i <= j < |recs| && Importable(recs[j])
        ensures HasKey(r.transactions, KeyOfRecord(recs[j].value))
      {
        if j == i {
          FirstKeyStored(db, recs, i, overwrite, mode, outside);
        }
      }
    }
  }

  /** Without faults the key of an importable line i is stored at the end. */
  lemma FirstKeyStored(db: Db, recs: seq<Option<Record>>, i: nat, overwrite: bool, mode: Classifier,
                       outside: seq<Outside>)
    requires ValidDb(db) && AllReadable(recs) && i < |recs| && Importable(recs[i])
    ensures HasKey(ImportFrom(db, recs, i, overwrite, mode, outside, NoFaults).transactions, KeyOfRecord(recs[i].value))
  {
    var s := ImportLine(db, recs[i], overwrite, mode, OutsideAt(outside, i), false, false);
    var r := ImportFrom(s.db, recs, i + 1, overwrite, mode, outside, NoFaults);
    NoFaultGoesOn(db, recs, i, overwrite, mode, outside);
    LineStoresKey(db, recs[i], overwrite, mode, OutsideAt(outside, i));
    RowsKept(s.db, recs, i + 1, overwrite, mode, outside, NoFaults);
    KeyStays(s.db.transactions, r.transactions, KeyOfRecord(recs[i].value));
  }

  /** Without faults the loop never stops early. */
  lemma NoFaultGoesOn(db: Db, recs: seq<Option<Record>>, i: nat, overwrite: bool, mode: Classifier,
                      outside: seq<Outside>)
    requires ValidDb(db) && AllReadable(recs) && i < |recs|
    ensures var s := ImportLine(db, recs[i], overwrite, mode, OutsideAt(outside, i), false, false);
      !s.stop && ImportFrom(db, recs, i, overwrite, mode, outside, NoFaults) ==
        ImportFrom(s.db, recs, i + 1, overwrite, mode, outside, NoFaults)
  {
    if Importable(recs[i]) {
      LineStoresKey(db, recs[i], overwrite, mode, OutsideAt(outside, i));
    }
  }

  /** Without overwrite, a file whose every importable line is already
      stored leaves the database exactly as it was, whatever the
      classifier, the outside world and the faults. */
  lemma {:induction false} ReimportUnchanged(db: Db, recs: seq<Option<Record>>, i: nat, mode: Classifier,
                                             outside: seq<Outside>, faults: Faults)
    requires ValidDb(db) && AllReadable(recs) && i <= |recs|
    requires forall j :: i <= j < |recs| && Importable(recs[j]) ==> HasKey(db.transactions, KeyOfRecord(recs[j].value))
    ensures ImportFrom(db, recs, i, false, mode, outside, faults) == db
    decreases |recs| - i
  {
    if i < |recs| {
      LineUnchanged(db, recs[i], mode, OutsideAt(outside, i), i in faults.checkFails, i in faults.writeFails);
      ReimportUnchanged(db, recs, i + 1, mode, outside, faults);
    }
  }

  /** Importing the same file a second time without overwrite changes
      nothing, once a first import ran without faults. */
  lemma ImportIdempotent(db: Db, text: string, overwrite: bool, mode: Classifier, outside: seq<Outside>,
                         mode2: Classifier, outside2: seq<Outside>, faults2: Faults)
    requires ValidDb(db)
    ensures var once := ImportFile(db, text, overwrite, mode, outside, NoFaults);
      ImportFile(once, text, false, mode2, outside2, faults2) == once
  {
    var recs := Records(ReadLines(text));
    AllKeysStored(db, recs, 0, overwrite, mode, outside);
    var once := ImportFile(db, text, overwrite, mode, outside, NoFaults);
    ReimportUnchanged(once, recs, 0, mode2, outside2, faults2);
  }

  // ---- the imperative importer ----

  /** get_category_id, as linked: the interactive one or the external one. */
  method ClassifyLine(ledger: Ledger, mode: Classifier, description: string, o: Outside) returns (id: int)
    requires ledger.Valid()
    modifies ledger
    ensures ledger.Valid()
    ensures (id, ledger.State()) == ClassifyWith(old(ledger.State()), mode, description, o)
  {
    match mode
    case Interactive(re) =>
      id := ClassifyInteractive(ledger, re, description, o.answer, o.queryFails);
    case External(hasApiKey) =>
      id := ClassifyExternal(ledger, description, hasApiKey, o.queryFails, o.service);
  }

  /** The loop body for one line, once sscanf and strptime have read it.
      Returns true where the source breaks out of the loop. */
  method ImportOne(ledger: Ledger, parsed: Option<Record>, overwrite: bool, mode: Classifier, o: Outside,
                   checkFails: bool, writeFails: bool) returns (stop: bool)
    requires ledger.Valid() && Readable(parsed)
    modifies ledger
    ensures ledger.Valid()
    ensures Step(ledger.State(), stop) == ImportLine(old(ledger.State()), parsed, overwrite, mode, o, checkFails, writeFails)
  {
    stop := false;
    if parsed.None? {
      return;
    }
    var r := parsed.value;
    if r.charge > 0.0 {
      return;
    }
    if checkFails {
      return;
    }
    var k := KeyOfRecord(r);
    var found := HasKey(ledger.transactions, k);
    if !found {
      var id := 1;
      if r.charge < 0.0 {
        id := ClassifyLine(ledger, mode, r.description, o);
      }
      if writeFails {
        return true;
      }
      ghost var before := ledger.transactions;
      ledger.AddTransaction(Transaction(r.date, r.charge, r.description, id));
      AppendFreshKey(before, Transaction(r.date, r.charge, r.description, id));
    } else if overwrite {
      var id := ClassifyLine(ledger, mode, r.description, o);
      if writeFails {
        return true;
      }
      SetCategoryKeepsKeys(ledger.transactions, k, id);
      ledger.UpdateCategory(k, id);
    }
  }

  /** fgets on the rest of the text returns the next line. */
  lemma NextLine(text: string, pos: nat, n: nat, lines: seq<string>, i: nat)
    requires pos < |text| && i <= |lines| && ReadLines(text[pos..]) == lines[i..]
    requires n == ChunkLength(text[pos..])
    ensures pos < pos + n <= |text| && i < |lines| && text[pos..pos + n] == lines[i]
    ensures ReadLines(text[pos + n..]) == lines[i + 1..]
  {
    var rest := text[pos..];
    assert rest[..n] == text[pos..pos + n] && rest[n..] == text[pos + n..];
    assert lines[i..] == [text[pos..pos + n]] + ReadLines(text[pos + n..]);
    assert lines[i] == lines[i..][0];
    assert lines[i + 1..] == lines[i..][1..];
  }

  /** One turn of the importer's loop. */
  lemma ImportFromStep(db: Db, recs: seq<Option<Record>>, i: nat, overwrite: bool, mode: Classifier,
                       outside: seq<Outside>, faults: Faults)
    requires ValidDb(db) && AllReadable(recs) && i < |recs|
    ensures var s := ImportLine(db, recs[i], overwrite, mode, OutsideAt(outside, i),
                                i in faults.checkFails, i in faults.writeFails);
      ImportFrom(db, recs, i, overwrite, mode, outside, faults) ==
        if s.stop then s.db else ImportFrom(s.db, recs, i + 1, overwrite, mode, outside, faults)
  {
  }

  /** One turn of the `while (fgets(..))` loop: take the next line of the
      text, read its fields and import it. */
  method ImportNext(ledger: Ledger, text: string, pos: nat, i: nat, ghost lines: seq<string>,
                    overwrite: bool, mode: Classifier, o: Outside, faults: Faults)
    returns (next: nat, stop: bool)
    requires pos < |text| && i <= |lines| && ReadLines(text[pos..]) == lines[i..]
    requires ledger.Valid()
    modifies ledger
    ensures ledger.Valid()
    ensures pos < next <= |text| && i < |lines| && ReadLines(text[next..]) == lines[i + 1..]
    ensures Step(ledger.State(), stop) ==
      ImportLine(old(ledger.State()), Records(lines)[i], overwrite, mode, o, i in faults.checkFails, i in faults.writeFails)
  {
    var line;
    line, next := NextChunk(text, pos, i, lines);
    var parsed := ParseRecord(line);
    RecordAt(lines, i, line);
    stop := ImportOne(ledger, parsed, overwrite, mode, o, i in faults.checkFails, i in faults.writeFails);
  }

  /** One fgets call: the next line of the text and where the rest starts. */
  method NextChunk(text: string, pos: nat, i: nat, ghost lines: seq<string>) returns (line: string, next: nat)
    requires pos < |text| && i <= |lines| && ReadLines(text[pos..]) == lines[i..]
    ensures pos < next <= |text| && i < |lines| && line == lines[i]
    ensures ReadLines(text[next..]) == lines[i + 1..]
  {
    var n := ChunkLength(text[pos..]);
    NextLine(text, pos, n, lines, i);
    line := text[pos..pos + n];
    next := pos + n;
  }

  /** import.c import_csv: fgets hands over the file's text line by line and
      each line is imported until a write fails. */
  method ImportCsv(ledger: Ledger, text: string, overwrite: bool, mode: Classifier,
                   outside: seq<Outside>, faults: Faults)
    requires ledger.Valid()
    modifies ledger
    ensures ledger.Valid()
    ensures ledger.State() == ImportFrom(old(ledger.State()), Records(ReadLines(text)), 0, overwrite, mode, outside, faults)
  {
    ghost var lines := ReadLines(text);
    ghost var recs := Records(lines);
    ghost var db0 := ledger.State();
    var pos := 0;
    var i := 0;
    while pos < |text|
      invariant 0 <= pos <= |text| && i <= |lines|
      invariant ReadLines(text[pos..]) == lines[i..]
      invariant ledger.Valid()
      invariant ImportFrom(ledger.State(), recs, i, overwrite, mode, outside, faults) == ImportFrom(db0, recs, 0, overwrite, mode, outside, faults)
      decreases |text| - pos
    {
      ImportFromStep(ledger.State(), recs, i, overwrite, mode, outside, faults);
      var stop;
      pos, stop := ImportNext(ledger, text, pos, i, lines, overwrite, mode, OutsideAt(outside, i), faults);
      if stop {
        return;
      }
      i := i + 1;
    }
    assert lines[i..] == [];
  }

  /** budget_tracker.c's import_csv: the same loop with the interactive
      classifier and no overwrite, so an existing row is never modified. */
  method ImportCsvInteractive(ledger: Ledger, text: string, re: Regex, outside: seq<Outside>, faults: Faults)
    requires ledger.Valid()
    modifies ledger
    ensures ledger.Valid()
    ensures ledger.State() == ImportFrom(old(ledger.State()), Records(ReadLines(text)), 0, false, Interactive(re), outside, faults)
    ensures |old(ledger.transactions)| <= |ledger.transactions|
    ensures ledger.transactions[..|old(ledger.transactions)|] == old(ledger.transactions)
  {
    RowsKept(ledger.State(), Records(ReadLines(text)), 0, false, Interactive(re), outside, faults);
    ImportCsv(ledger, text, false, Interactive(re), outside, faults);
  }
}
