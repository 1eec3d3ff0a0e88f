/** category.c: the classifier that asks an external language model
    (get_category_id, category.c:43-163), the category upsert
    (create_category) and the comma-separated examples loader
    (create_category_examples). The HTTP exchange is abstract: the model's
    reply is an input. */
module Assistant {
  import opened Common
  import opened Store
  import Csv

  /** One row of `SELECT c.label, c.description, e.example FROM categories c
      LEFT JOIN category_examples e ON c.id = e.category_id`. */
  datatype JoinedRow = JoinedRow(name: string, description: Option<string>, example: Option<string>)

  /** The example texts of one category, in table order. */
  function ExamplesOf(id: int, es: seq<Example>): (r: seq<string>)
    ensures |r| <= |es|
    ensures forall x :: x in r <==> exists j :: 0 <= j < |es| && es[j].categoryId == id && es[j].text == x
    decreases |es|
  {
    if es == [] then []
    else (if es[0].categoryId == id then [es[0].text] else []) + ExamplesOf(id, es[1..])
  }

  /** The rows the LEFT JOIN gives for one category: one per example, or a
      single row with a NULL example when it has none. */
  function RowsFor(c: Category, es: seq<Example>): (r: seq<JoinedRow>)
    ensures |r| >= 1
  {
    var xs := ExamplesOf(c.id, es);
    if xs == [] then [JoinedRow(c.name, c.description, None)]
    else seq(|xs|, i requires 0 <= i < |xs| => JoinedRow(c.name, c.description, Some(xs[i])))
  }

  /** The whole LEFT JOIN, category by category. */
  function JoinRows(cs: seq<Category>, es: seq<Example>): seq<JoinedRow>
    decreases |cs|
  {
    if cs == [] then [] else RowsFor(cs[0], es) + JoinRows(cs[1..], es)
  }

  /** The two characters `\n` the source writes into the JSON text. */
  const NL: string := "\\n"

  const CategoriesHeader: string := "Categories:" + NL

  const ExamplesHeader: string := "Examples:" + NL

  const ModelName: string := "gpt-4o-mini"

  /** post_data is a 4096-byte buffer. */
  const RequestCapacity: nat := 4096

  /** What one joined row adds to categories_part. */
  function CategoryLine(r: JoinedRow): string
  {
    if r.description.Some? then "- " + r.name + ": " + r.description.value + NL else []
  }

  /** What one joined row adds to examples_part. */
  function ExampleLine(r: JoinedRow): string
  {
    if r.example.Some? then r.example.value + NL else []
  }

  function CategoryLines(rows: seq<JoinedRow>): string
    decreases |rows|
  {
    if rows == [] then [] else CategoryLines(rows[..|rows| - 1]) + CategoryLine(rows[|rows| - 1])
  }

  function ExampleLines(rows: seq<JoinedRow>): string
    decreases |rows|
  {
    if rows == [] then [] else ExampleLines(rows[..|rows| - 1]) + ExampleLine(rows[|rows| - 1])
  }

  /** The JSON text snprintf writes into post_data. */
  function Request(categoriesPart: string, examplesPart: string, description: string): string
  {
    "{\"model\": \"" + ModelName + "\",\"messages\": [{\"role\": \"user\", \"content\": \""
    + "You are a financial assistant that categorizes transactions." + NL
    + categoriesPart + examplesPart
    + "Now classify this transaction:" + NL
    + "\\\"" + description + "\\\"" + NL
    + "Return only the category name as a string.\"}]}"
  }

  /** The prompt loop: categories_part and examples_part after every row. */
  method AssemblePrompt(rows: seq<JoinedRow>) returns (categoriesPart: string, examplesPart: string)
    ensures categoriesPart == CategoriesHeader + CategoryLines(rows)
    ensures examplesPart == ExamplesHeader + ExampleLines(rows)
  {
    categoriesPart := CategoriesHeader;
    examplesPart := ExamplesHeader;
    var i := 0;
    while i < |rows|
      invariant 0 <= i <= |rows|
      invariant categoriesPart == CategoriesHeader + CategoryLines(rows[..i])
      invariant examplesPart == ExamplesHeader + ExampleLines(rows[..i])
    {
      assert rows[..i + 1][..i] == rows[..i];
      assert CategoryLines(rows[..i + 1]) == CategoryLines(rows[..i]) + CategoryLine(rows[i]);
      assert ExampleLines(rows[..i + 1]) == ExampleLines(rows[..i]) + ExampleLine(rows[i]);
      AppendAssoc(CategoriesHeader, CategoryLines(rows[..i]), CategoryLine(rows[i]));
      AppendAssoc(ExamplesHeader, ExampleLines(rows[..i]), ExampleLine(rows[i]));
      categoriesPart := categoriesPart + CategoryLine(rows[i]);
      examplesPart := examplesPart + ExampleLine(rows[i]);
      i := i + 1;
    }
    assert rows[..i] == rows;
  }

  /** Regrouping a concatenation: the step from one turn of AssemblePrompt's
      loop to its invariant at the next turn. */
  lemma AppendAssoc(a: string, b: string, c: string)
    ensures (a + b) + c == a + (b + c)
  {
  }

  /** `SELECT id FROM categories WHERE label = '<reply>'`: the id of the first
      category with exactly that label, -1 when there is none. */
  function LabelId(cs: seq<Category>, name: string): (id: int)
    requires AscendingIds(cs)
    ensures id == -1 <==> forall i :: 0 <= i < |cs| ==> cs[i].name != name
    ensures id != -1 ==> exists i :: 0 <= i < |cs| && cs[i].name == name && cs[i].id == id
  {
    match NameIndex(cs, name)
    case None => -1
    case Some(k) => cs[k].id
  }

  /** With unique labels the lookup finds the one category that has the label. */
  lemma LabelIdExact(cs: seq<Category>, k: nat)
    requires ValidCategories(cs) && k < |cs|
    ensures LabelId(cs, cs[k].name) == cs[k].id
  {
  }

  /** What the external service does, as seen by the classifier: curl could
      not be set up, one of the two transfers failed, or a reply whose
      message content is the given text (None: no usable content). */
  datatype Service = Service(initFails: bool, sendFails: bool, reply: Option<string>)

  /** category.c get_category_id: -1 without an API key, without curl, when
      the category query cannot be prepared, when a transfer fails or no
      content comes back; 0 when the request does not fit in post_data;
      otherwise the id of the category whose label is the reply, or -1. */
  function ExternalClassify(db: Db, description: string, hasApiKey: bool, queryFails: bool, service: Service)
    : (id: int)
    requires AscendingIds(db.categories)
    ensures id == -1 || id == 0 || exists i :: 0 <= i < |db.categories| && db.categories[i].id == id
    ensures id == 0 ==> hasApiKey && |Request(CategoriesHeader + CategoryLines(JoinRows(db.categories, db.examples)),
                                               ExamplesHeader + ExampleLines(JoinRows(db.categories, db.examples)),
                                               description)| >= RequestCapacity
  {
    if !hasApiKey || service.initFails || queryFails then -1
    else
      var rows := JoinRows(db.categories, db.examples);
      var request := Request(CategoriesHeader + CategoryLines(rows), ExamplesHeader + ExampleLines(rows), description);
      if |request| >= RequestCapacity then 0
      else if service.sendFails || service.reply.None? then -1
      else LabelId(db.categories, service.reply.value)
  }

  /** The classifier as the source runs it: the prompt loop over the joined
      rows, the length guard, and the lookup of the reply. It changes nothing. */
  method ClassifyExternal(ledger: Ledger, description: string, hasApiKey: bool, queryFails: bool, service: Service)
    returns (id: int)
    requires AscendingIds(ledger.categories)
    ensures id == ExternalClassify(ledger.State(), description, hasApiKey, queryFails, service)
  {
    if !hasApiKey {
      return -1;
    }
    if service.initFails {
      return -1;
    }
    if queryFails {
      return -1;
    }
    var categoriesPart, examplesPart := AssemblePrompt(JoinRows(ledger.categories, ledger.examples));
    var request := Request(categoriesPart, examplesPart, description);
    if |request| >= RequestCapacity {
      return 0;
    }
    id := -1;
    if !service.sendFails && service.reply.Some? {
      id := LabelId(ledger.categories, service.reply.value);
    }
  }

  /** The early exits of the external classifier: without an API key the
      result is -1 whatever the database and the service do; with a key, a
      curl handle that cannot be created or a category query that cannot be
      prepared gives -1; a request that does not fit gives 0 whatever the
      service answers; a fitting request whose transfer fails or whose reply
      has no content gives -1. */
  lemma ExternalExits(db: Db, description: string, queryFails: bool, service: Service)
    requires AscendingIds(db.categories)
    ensures ExternalClassify(db, description, false, queryFails, service) == -1
    ensures service.initFails || queryFails ==> ExternalClassify(db, description, true, queryFails, service) == -1
    ensures var rows := JoinRows(db.categories, db.examples);
      var request := Request(CategoriesHeader + CategoryLines(rows), ExamplesHeader + ExampleLines(rows), description);
      !service.initFails && !queryFails && |request| >= RequestCapacity ==>
        ExternalClassify(db, description, true, queryFails, service) == 0
    ensures var rows := JoinRows(db.categories, db.examples);
      var request := Request(CategoriesHeader + CategoryLines(rows), ExamplesHeader + ExampleLines(rows), description);
      !service.initFails && !queryFails && |request| < RequestCapacity && (service.sendFails || service.reply.None?) ==>
        ExternalClassify(db, description, true, queryFails, service) == -1
  {
  }

  /** A reply that arrives is resolved by exact label: the label of a
      category gives that category's id, any other text gives -1. */
  lemma ExternalReply(db: Db, description: string, reply: string)
    requires ValidCategories(db.categories)
    ensures var rows := JoinRows(db.categories, db.examples);
      var request := Request(CategoriesHeader + CategoryLines(rows), ExamplesHeader + ExampleLines(rows), description);
      var id := ExternalClassify(db, description, true, false, Service(false, false, Some(reply)));
      && (|request| < RequestCapacity ==>
            forall k :: 0 <= k < |db.categories| && db.categories[k].name == reply ==> id == db.categories[k].id)
      && (|request| < RequestCapacity && (forall k :: 0 <= k < |db.categories| ==> db.categories[k].name != reply) ==>
            id == -1)
  {
    forall k | 0 <= k < |db.categories| && db.categories[k].name == reply {
      LabelIdExact(db.categories, k);
    }
  }

  function Repeat(s: string, k: nat): string
  {
    if k == 0 then [] else Repeat(s, k - 1) + s
  }

  function Max1(k: nat): nat { if k == 0 then 1 else k }

  /** What the whole category query contributes to categories_part, category
      by category: a category's line once per example it has (at least once). */
  function CategoryBlocks(cs: seq<Category>, es: seq<Example>): string
    decreases |cs|
  {
    if cs == [] then []
    else Repeat(CategoryLine(JoinedRow(cs[0].name, cs[0].description, None)), Max1(|ExamplesOf(cs[0].id, es)|))
         + CategoryBlocks(cs[1..], es)
  }

  function Lines(xs: seq<string>): string
    decreases |xs|
  {
    if xs == [] then [] else xs[0] + NL + Lines(xs[1..])
  }

  /** What the whole category query contributes to examples_part: every
      example of every category, once, category by category. */
  function ExampleBlocks(cs: seq<Category>, es: seq<Example>): string
    decreases |cs|
  {
    if cs == [] then [] else Lines(ExamplesOf(cs[0].id, es)) + ExampleBlocks(cs[1..], es)
  }

  lemma {:induction false} CategoryLinesAppend(a: seq<JoinedRow>, b: seq<JoinedRow>)
    ensures CategoryLines(a + b) == CategoryLines(a) + CategoryLines(b)
    decreases |b|
  {
    if b != [] {
      var b' := b[..|b| - 1];
      assert (a + b)[..|a + b| - 1] == a + b';
      CategoryLinesAppend(a, b');
    } else {
      assert a + b == a;
    }
  }

  lemma {:induction false} ExampleLinesAppend(a: seq<JoinedRow>, b: seq<JoinedRow>)
    ensures ExampleLines(a + b) == ExampleLines(a) + ExampleLines(b)
    decreases |b|
  {
    if b != [] {
      var b' := b[..|b| - 1];
      assert (a + b)[..|a + b| - 1] == a + b';
      ExampleLinesAppend(a, b');
    } else {
      assert a + b == a;
    }
  }

  /** k rows of one category, whatever their examples, give its line k times. */
  lemma {:induction false} SameCategoryLines(rows: seq<JoinedRow>, c: Category)
    requires forall i :: 0 <= i < |rows| ==> rows[i].name == c.name && rows[i].description == c.description
    ensures CategoryLines(rows) == Repeat(CategoryLine(JoinedRow(c.name, c.description, None)), |rows|)
    decreases |rows|
  {
    if rows != [] {
      SameCategoryLines(rows[..|rows| - 1], c);
      assert CategoryLine(rows[|rows| - 1]) == CategoryLine(JoinedRow(c.name, c.description, None));
    }
  }

  /** Rows that carry the examples xs in order give each example's line once. */
  lemma {:induction false} ExampleRowsLines(rows: seq<JoinedRow>, xs: seq<string>)
    requires |rows| == |xs| && forall i :: 0 <= i < |rows| ==> rows[i].example == Some(xs[i])
    ensures ExampleLines(rows) == Lines(xs)
    decreases |rows|
  {
    if rows != [] {
      var head, tail := rows[0], rows[1..];
      assert rows == [head] + tail;
      ExampleLinesAppend([head], tail);
      OneExampleLine(head, xs[0]);
      forall i | 0 <= i < |tail| ensures tail[i].example == Some(xs[1..][i]) {
        assert tail[i] == rows[i + 1];
      }
      ExampleRowsLines(tail, xs[1..]);
    }
  }

  lemma OneExampleLine(r: JoinedRow, x: string)
    requires r.example == Some(x)
    ensures ExampleLines([r]) == x + NL
  {
    assert [r][..0] == [];
  }

  /** Because of the LEFT JOIN, categories_part lists each category with a
      description once per example it has, and once if it has none. */
  lemma {:induction false} CategoryLinesOfJoin(cs: seq<Category>, es: seq<Example>)
    ensures CategoryLines(JoinRows(cs, es)) == CategoryBlocks(cs, es)
    decreases |cs|
  {
    if cs != [] {
      var rows := RowsFor(cs[0], es);
      CategoryLinesAppend(rows, JoinRows(cs[1..], es));
      SameCategoryLines(rows, cs[0]);
      CategoryLinesOfJoin(cs[1..], es);
    }
  }

  /** examples_part lists every example whose category exists, once, grouped
      by category in category order; examples of no category are left out. */
  lemma {:induction false} ExampleLinesOfJoin(cs: seq<Category>, es: seq<Example>)
    ensures ExampleLines(JoinRows(cs, es)) == ExampleBlocks(cs, es)
    decreases |cs|
  {
    if cs != [] {
      var rows := RowsFor(cs[0], es);
      ExampleLinesAppend(rows, JoinRows(cs[1..], es));
      var xs := ExamplesOf(cs[0].id, es);
      if xs == [] {
        assert ExampleLines(rows) == ExampleLines([]) + ExampleLine(rows[0]);
      } else {
        ExampleRowsLines(rows, xs);
      }
      ExampleLinesOfJoin(cs[1..], es);
    }
  }

  // ---- create_category_examples: strtok(examples, ",") ----

  /** The tokens strtok returns for the delimiter ',': maximal runs of
      characters other than ',', in order; empty fields are skipped. */
  function Tokens(s: string): (ts: seq<string>)
    ensures forall i :: 0 <= i < |ts| ==> |ts[i]| >= 1 && Csv.CommaFree(ts[i])
    decreases |s|
  {
    if s == [] then []
    else if s[0] == ',' then Tokens(s[1..])
    else
      var n := Csv.Span(s, |s|, ',');
      [s[..n]] + Tokens(s[n..])
  }

  function RemoveCommas(s: string): (r: string)
    decreases |s|
  {
    if s == [] then [] else (if s[0] == ',' then [] else [s[0]]) + RemoveCommas(s[1..])
  }

  function Concat(ts: seq<string>): string
    decreases |ts|
  {
    if ts == [] then [] else ts[0] + Concat(ts[1..])
  }

  lemma {:induction false} RemoveCommasAppend(a: string, b: string)
    ensures RemoveCommas(a + b) == RemoveCommas(a) + RemoveCommas(b)
    decreases |a|
  {
    if a != [] {
      assert (a + b)[1..] == a[1..] + b;
      RemoveCommasAppend(a[1..], b);
    } else {
      assert a + b == b;
    }
  }

  lemma {:induction false} RemoveCommasOfFree(t: string)
    requires Csv.CommaFree(t)
    ensures RemoveCommas(t) == t
    decreases |t|
  {
    if t != [] {
      RemoveCommasOfFree(t[1..]);
      assert t == [t[0]] + t[1..];
    }
  }

  /** strtok loses only the delimiters: the tokens put together are the
      input with its commas removed. */
  lemma {:induction false} TokensCover(s: string)
    ensures Concat(Tokens(s)) == RemoveCommas(s)
    decreases |s|
  {
    if s != [] {
      if s[0] == ',' {
        TokensCover(s[1..]);
      } else {
        var n := Csv.Span(s, |s|, ',');
        TokensCover(s[n..]);
        assert s == s[..n] + s[n..];
        RemoveCommasAppend(s[..n], s[n..]);
        RemoveCommasOfFree(s[..n]);
      }
    }
  }

  /** The comma-joined text of some fields. */
  function JoinCommas(ts: seq<string>): string
    decreases |ts|
  {
    if ts == [] then [] else if |ts| == 1 then ts[0] else ts[0] + "," + JoinCommas(ts[1..])
  }

  /** Splitting comma-joined non-empty, comma-free examples gives them back. */
  lemma {:induction false} TokensOfJoin(ts: seq<string>)
    requires forall i :: 0 <= i < |ts| ==> |ts[i]| >= 1 && Csv.CommaFree(ts[i])
    ensures Tokens(JoinCommas(ts)) == ts
    decreases |ts|
  {
    if ts != [] {
      var t := ts[0];
      var rest := if |ts| == 1 then [] else "," + JoinCommas(ts[1..]);
      var s := t + rest;
      assert JoinCommas(ts) == s;
      assert s[0] == t[0];
      if rest == [] {
        Csv.SpanField(t, [','], |s|, ',');
        assert Csv.Span(t + [','], |s|, ',') == |t|;
        SpanWhole(t);
        assert s[..|t|] == t && s[|t|..] == [];
      } else {
        Csv.SpanField(t, rest, |s|, ',');
        assert s[..|t|] == t && s[|t|..] == rest;
        TokensOfJoin(ts[1..]);
        assert rest[1..] == JoinCommas(ts[1..]);
      }
    }
  }

  /** A field with no comma is read whole. */
  lemma {:induction false} SpanWhole(t: string)
    requires Csv.CommaFree(t)
    ensures Csv.Span(t, |t|, ',') == |t|
    decreases |t|
  {
    if t != [] {
      SpanWhole(t[1..]);
    }
  }

  /** The first k examples are inserted; k is the number of tokens, or the
      position of the first insert that fails. */
  function InsertedCount(n: nat, fails: set<nat>, k: nat): (m: nat)
    requires k <= n
    ensures k <= m <= n
    ensures m < n ==> m in fails
    ensures forall j :: k <= j < m ==> j !in fails
    decreases n - k
  {
    if k == n || k in fails then k else InsertedCount(n, fails, k + 1)
  }

  function ExampleRows(ts: seq<string>, categoryId: int): (r: seq<Example>)
    ensures |r| == |ts| && forall i :: 0 <= i < |ts| ==> r[i] == Example(categoryId, ts[i])
  {
    seq(|ts|, i requires 0 <= i < |ts| => Example(categoryId, ts[i]))
  }

  /** The rows create_category_examples adds: one per token, in input order,
      tied to the category, up to the first failing insert. */
  function AddedExamples(text: string, categoryId: int, fails: set<nat>): seq<Example>
  {
    var ts := Tokens(text);
    ExampleRows(ts[..InsertedCount(|ts|, fails, 0)], categoryId)
  }

  /** Every example added is non-empty and comma-free, belongs to the given
      category, and the added texts are the input's leading tokens in order;
      with no failing insert they are all of them. */
  lemma AddedExamplesShape(text: string, categoryId: int, fails: set<nat>)
    ensures var added := AddedExamples(text, categoryId, fails);
      && |added| <= |Tokens(text)|
      && (forall i :: 0 <= i < |added| ==>
            added[i].categoryId == categoryId && added[i].text == Tokens(text)[i]
            && |added[i].text| >= 1 && Csv.CommaFree(added[i].text))
      && (fails == {} ==> |added| == |Tokens(text)|)
  {
    var ts := Tokens(text);
    var m := InsertedCount(|ts|, fails, 0);
    assert fails == {} ==> m == |ts|;
  }

  /** One strtok call from position pos: skip commas, then take the run up
      to the next comma. Returns the token's bounds; start == |s| when
      strtok returns NULL. */
  method NextToken(s: string, pos: nat) returns (start: nat, end: nat)
    requires pos <= |s|
    ensures pos <= start <= end <= |s|
    ensures start == |s| ==> Tokens(s[pos..]) == []
    ensures start < |s| ==> start < end && Tokens(s[pos..]) == [s[start..end]] + Tokens(s[end..])
  {
    start := pos;
    while start < |s| && s[start] == ','
      invariant pos <= start <= |s|
      invariant Tokens(s[pos..]) == Tokens(s[start..])
    {
      SkipComma(s, start);
      start := start + 1;
    }
    end := start;
    while end < |s| && s[end] != ','
      invariant start <= end <= |s|
      invariant forall j :: start <= j < end ==> s[j] != ','
    {
      end := end + 1;
    }
    if start < |s| {
      TokenAt(s, start, end);
    } else {
      assert s[start..] == [];
    }
  }

  /** strtok skips a leading delimiter. */
  lemma SkipComma(s: string, k: nat)
    requires k < |s| && s[k] == ','
    ensures Tokens(s[k..]) == Tokens(s[k + 1..])
  {
    assert s[k..][1..] == s[k + 1..];
  }

  /** A comma-free run that starts the text and ends at a comma or at the
      end of the text is its first token. */
  lemma TokenAt(s: string, start: nat, end: nat)
    requires start < end <= |s| && (end == |s| || s[end] == ',')
    requires forall j :: start <= j < end ==> s[j] != ','
    ensures Tokens(s[start..]) == [s[start..end]] + Tokens(s[end..])
  {
    var t := s[start..end];
    var u := s[start..];
    assert u == t + s[end..];
    assert Csv.CommaFree(t);
    if end < |s| {
      Csv.SpanField(t, s[end..], |u|, ',');
    } else {
      assert u == t;
      SpanWhole(t);
    }
    assert u[..|t|] == t && u[|t|..] == s[end..];
  }

  /** create_category_examples: the strtok loop, one insert per token, which
      stops at the first insert that fails (fails holds the positions of the
      inserts that fail). */
  method CreateCategoryExamples(ledger: Ledger, text: string, categoryId: int, fails: set<nat>)
    modifies ledger
    ensures ledger.examples == old(ledger.examples) + AddedExamples(text, categoryId, fails)
    ensures ledger.transactions == old(ledger.transactions) && ledger.categories == old(ledger.categories)
    ensures ledger.budgets == old(ledger.budgets)
  {
    ghost var ts := Tokens(text);
    var pos := 0;
    var k := 0;
    while true
      invariant 0 <= pos <= |text| && k <= |ts|
      invariant Tokens(text[pos..]) == ts[k..]
      invariant forall j :: 0 <= j < k ==> j !in fails
      invariant ledger.examples == old(ledger.examples) + ExampleRows(ts[..k], categoryId)
      invariant ledger.transactions == old(ledger.transactions) && ledger.categories == old(ledger.categories)
      invariant ledger.budgets == old(ledger.budgets)
      decreases |text| - pos
    {
      var start, end := NextToken(text, pos);
      if start == |text| {
        assert k == |ts|;
        assert ts[..k] == ts[..InsertedCount(|ts|, fails, 0)] by { InsertedAll(|ts|, fails, 0, k); }
        return;
      }
      if k in fails {
        assert ts[..k] == ts[..InsertedCount(|ts|, fails, 0)] by { InsertedStop(|ts|, fails, 0, k); }
        return;
      }
      assert ts[k] == text[start..end];
      ledger.AddExample(categoryId, text[start..end]);
      assert ts[..k + 1] == ts[..k] + [ts[k]];
      k := k + 1;
      pos := end;
    }
  }

  lemma {:induction false} InsertedAll(n: nat, fails: set<nat>, from: nat, k: nat)
    requires from <= k == n && forall j :: from <= j < k ==> j !in fails
    ensures InsertedCount(n, fails, from) == n
    decreases n - from
  {
    if from < n {
      InsertedAll(n, fails, from + 1, k);
    }
  }

  lemma {:induction false} InsertedStop(n: nat, fails: set<nat>, from: nat, k: nat)
    requires from <= k < n && k in fails && forall j :: from <= j < k ==> j !in fails
    ensures InsertedCount(n, fails, from) == k
    decreases n - from
  {
    if from < k {
      InsertedStop(n, fails, from + 1, k);
    }
  }
}
