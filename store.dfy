/** The in-memory stand-in for the SQLite database budget.db: the
    transactions, categories, category_examples and budgets tables, and the
    statements the core runs against them, each by its meaning. */
module Store {
  import opened Common
  import opened Dates

  /** A row of `transactions` (the AUTOINCREMENT id is not modelled). */
  datatype Transaction = Transaction(date: string, charge: real, description: string, categoryId: int)

  /** A row of `categories`; description and regex_pattern may be NULL. */
  datatype Category = Category(id: int, name: string, description: Option<string>, pattern: Option<string>)

  /** A row of `category_examples`. */
  datatype Example = Example(categoryId: int, text: string)

  /** The whole database; budgets maps a year to its amount. */
  datatype Db = Db(transactions: seq<Transaction>, categories: seq<Category>, examples: seq<Example>,
                   budgets: map<int, real>)

  /** What the importer's existence check compares: `date = .. AND charge = .. AND description = ..`. */
  datatype Key = Key(date: string, charge: real, description: string)

  function KeyOf(t: Transaction): Key
  {
    Key(t.date, t.charge, t.description)
  }

  /** `SELECT COUNT(*) ... WHERE <key matches>` is non-zero. */
  predicate HasKey(ts: seq<Transaction>, k: Key)
  {
    exists i :: 0 <= i < |ts| && KeyOf(ts[i]) == k
  }

  predicate NoDuplicateKeys(ts: seq<Transaction>)
  {
    forall i, j :: 0 <= i < j < |ts| ==> KeyOf(ts[i]) != KeyOf(ts[j])
  }

  /** The table in rowid order, which is how a full scan lists it (the
      pattern query and the prompt's join do); a new row gets a rowid above
      every other. */
  predicate AscendingIds(cs: seq<Category>)
  {
    && (forall i :: 0 <= i < |cs| ==> cs[i].id >= 1)
    && (forall i, j :: 0 <= i < j < |cs| ==> cs[i].id < cs[j].id)
  }

  /** The UNIQUE constraint on categories.label. */
  predicate UniqueNames(cs: seq<Category>)
  {
    forall i, j :: 0 <= i < j < |cs| ==> cs[i].name != cs[j].name
  }

  /** Each label is at most the next one in SQLite's BINARY order. */
  predicate LabelOrder(cs: seq<Category>)
  {
    forall i :: 0 <= i < |cs| - 1 ==> LexLessEq(cs[i].name, cs[i + 1].name)
  }

  /** The rows of `SELECT id, label FROM categories`: SQLite reads them from
      the UNIQUE index on label, which holds both columns, so they come in
      label order rather than in rowid order. */
  function Listed(cs: seq<Category>): (r: seq<Category>)
    ensures |r| == |cs| && multiset(r) == multiset(cs)
    ensures LabelOrder(r)
    decreases |cs|
  {
    if cs == [] then []
    else
      var init := cs[..|cs| - 1];
      assert cs == init + [cs[|cs| - 1]];
      InsertByLabel(cs[|cs| - 1], Listed(init))
  }

  /** Every listed row is a row of the table. */
  lemma ListedRow(cs: seq<Category>, k: nat)
    requires k < |cs|
    ensures exists i :: 0 <= i < |cs| && cs[i] == Listed(cs)[k]
  {
    var c := Listed(cs)[k];
    assert c in multiset(Listed(cs));
    assert c in cs;
  }

  /** One row put into its place in a listing ordered by label. */
  function InsertByLabel(c: Category, cs: seq<Category>): (r: seq<Category>)
    requires LabelOrder(cs)
    ensures |r| == |cs| + 1 && multiset(r) == multiset(cs) + multiset{c}
    ensures LabelOrder(r)
    ensures r[0] == c || (cs != [] && r[0] == cs[0])
    decreases |cs|
  {
    if cs == [] || LexLessEq(c.name, cs[0].name) then [c] + cs
    else
      LexTotal(c.name, cs[0].name);
      assert cs == [cs[0]] + cs[1..];
      [cs[0]] + InsertByLabel(c, cs[1..])
  }

  predicate ValidCategories(cs: seq<Category>)
  {
    AscendingIds(cs) && UniqueNames(cs)
  }

  /** What the core keeps true of the database: no two transactions share a
      key, each date is one strftime writes, only debits and zero charges are
      stored, and the category table keeps its key and name constraints. */
  ghost predicate ValidDb(db: Db)
  {
    && NoDuplicateKeys(db.transactions)
    && (forall i :: 0 <= i < |db.transactions| ==> WrittenDate(db.transactions[i].date))
    && (forall i :: 0 <= i < |db.transactions| ==> db.transactions[i].charge <= 0.0)
    && ValidCategories(db.categories)
  }

  /** The largest category id, 0 for an empty table. */
  function MaxId(cs: seq<Category>): (m: int)
    ensures forall i :: 0 <= i < |cs| ==> cs[i].id <= m
    ensures m == 0 || exists i :: 0 <= i < |cs| && cs[i].id == m
    decreases |cs|
  {
    if cs == [] then 0
    else
      var m := MaxId(cs[..|cs| - 1]);
      if cs[|cs| - 1].id > m then cs[|cs| - 1].id else m
  }

  /** The id SQLite gives the next category row: one above the largest. */
  function NextId(cs: seq<Category>): (id: int)
    ensures id >= 1 && forall i :: 0 <= i < |cs| ==> cs[i].id < id
  {
    if MaxId(cs) < 0 then 1 else MaxId(cs) + 1
  }

  /** Position of the category with this label, if any. */
  function NameIndex(cs: seq<Category>, name: string): (r: Option<nat>)
    ensures r.Some? ==> r.value < |cs| && cs[r.value].name == name
    ensures r.None? <==> forall i :: 0 <= i < |cs| ==> cs[i].name != name
    ensures r.Some? ==> forall i :: 0 <= i < r.value ==> cs[i].name != name
    decreases |cs|
  {
    if cs == [] then None
    else if cs[0].name == name then Some(0)
    else match NameIndex(cs[1..], name)
      case None => None
      case Some(k) => Some(k + 1)
  }

  /** A plain `INSERT INTO categories`: None when the UNIQUE constraint on
      the name rejects it, otherwise the table with the new row appended. */
  function InsertCategory(cs: seq<Category>, name: string, description: Option<string>, pattern: Option<string>)
    : (r: Option<seq<Category>>)
    ensures r.None? <==> exists i :: 0 <= i < |cs| && cs[i].name == name
    ensures r.Some? ==> r.value == cs + [Category(NextId(cs), name, description, pattern)]
  {
    if NameIndex(cs, name).Some? then None
    else Some(cs + [Category(NextId(cs), name, description, pattern)])
  }

  /** A successful insert keeps the table's constraints. */
  lemma InsertKeepsValid(cs: seq<Category>, name: string, description: Option<string>, pattern: Option<string>)
    requires ValidCategories(cs)
    requires InsertCategory(cs, name, description, pattern).Some?
    ensures ValidCategories(InsertCategory(cs, name, description, pattern).value)
  {
    var r := InsertCategory(cs, name, description, pattern).value;
    assert forall i :: 0 <= i < |cs| ==> r[i] == cs[i];
  }

  /** category.c's upsert: `INSERT .. (label, description) .. ON CONFLICT(label)
      DO UPDATE SET description = excluded.description`. */
  function UpsertCategory(cs: seq<Category>, name: string, description: string): (r: seq<Category>)
  {
    match NameIndex(cs, name)
    case Some(k) => cs[k := cs[k].(description := Some(description))]
    case None => cs + [Category(NextId(cs), name, Some(description), None)]
  }

  /** After the upsert exactly one category carries the label and it has the
      new description; an existing category keeps its id and pattern, and
      every other category is untouched. */
  lemma UpsertEffect(cs: seq<Category>, name: string, description: string)
    requires ValidCategories(cs)
    ensures var r := UpsertCategory(cs, name, description);
      && ValidCategories(r)
      && (exists k :: 0 <= k < |r| && r[k].name == name && r[k].description == Some(description))
      && |r| == |cs| + (if NameIndex(cs, name).Some? then 0 else 1)
      && (forall i :: 0 <= i < |cs| && cs[i].name != name ==> r[i] == cs[i])
      && (forall i :: 0 <= i < |cs| && cs[i].name == name ==> r[i].id == cs[i].id && r[i].pattern == cs[i].pattern)
  {
    var r := UpsertCategory(cs, name, description);
    match NameIndex(cs, name)
    case Some(k) =>
      assert r[k].name == name;
    case None =>
      InsertKeepsValid(cs, name, Some(description), None);
      assert r[|cs|].name == name;
  }

  /** The importer's UPDATE: every row with the key gets the new category. */
  function SetCategory(ts: seq<Transaction>, k: Key, categoryId: int): (r: seq<Transaction>)
    ensures |r| == |ts|
    ensures forall i :: 0 <= i < |ts| ==> r[i] == if KeyOf(ts[i]) == k then ts[i].(categoryId := categoryId) else ts[i]
  {
    seq(|ts|, i requires 0 <= i < |ts| => if KeyOf(ts[i]) == k then ts[i].(categoryId := categoryId) else ts[i])
  }

  /** The UPDATE changes categories only: row count, dates, charges and
      descriptions stay, so no key appears or disappears. */
  lemma SetCategoryKeepsKeys(ts: seq<Transaction>, k: Key, categoryId: int)
    ensures var r := SetCategory(ts, k, categoryId);
      && |r| == |ts|
      && (forall i :: 0 <= i < |ts| ==> KeyOf(r[i]) == KeyOf(ts[i]))
      && (forall k' :: HasKey(r, k') <==> HasKey(ts, k'))
      && (NoDuplicateKeys(ts) ==> NoDuplicateKeys(r))
  {
    var r := SetCategory(ts, k, categoryId);
    forall k' ensures HasKey(r, k') <==> HasKey(ts, k') {
      if HasKey(ts, k') {
        var i :| 0 <= i < |ts| && KeyOf(ts[i]) == k';
        assert KeyOf(r[i]) == k';
      }
      if HasKey(r, k') {
        var i :| 0 <= i < |r| && KeyOf(r[i]) == k';
        assert KeyOf(ts[i]) == k';
      }
    }
  }

  /** The in-memory database that the source's SQL statements read and write. */
  class Ledger {
    var transactions: seq<Transaction>
    var categories: seq<Category>
    var examples: seq<Example>
    var budgets: map<int, real>

    function State(): Db
      reads this
    {
      Db(transactions, categories, examples, budgets)
    }

    ghost predicate Valid()
      reads this
    {
      ValidDb(State())
    }

    constructor (db: Db)
      ensures State() == db
    {
      transactions := db.transactions;
      categories := db.categories;
      examples := db.examples;
      budgets := db.budgets;
    }

    /** set_budget: `INSERT INTO budgets .. ON CONFLICT(year) DO UPDATE SET amount = excluded.amount`. */
    method SetBudget(year: int, amount: real)
      modifies this
      ensures budgets == old(budgets)[year := amount]
      ensures year in budgets && budgets[year] == amount
      ensures forall y :: y != year ==> (y in budgets <==> y in old(budgets)) && (y in budgets ==> budgets[y] == old(budgets)[y])
      ensures transactions == old(transactions) && categories == old(categories) && examples == old(examples)
    {
      budgets := budgets[year := amount];
    }

    /** category.c create_category: the upsert on the label. */
    method Upsert(name: string, description: string)
      requires Valid()
      modifies this
      ensures Valid()
      ensures categories == UpsertCategory(old(categories), name, description)
      ensures transactions == old(transactions) && examples == old(examples) && budgets == old(budgets)
    {
      UpsertEffect(categories, name, description);
      categories := UpsertCategory(categories, name, description);
    }

    /** A plain category insert. Returns the new id, or -1 when the label is
        taken and nothing changes. */
    method AddCategory(name: string, description: Option<string>, pattern: Option<string>) returns (id: int)
      requires Valid()
      modifies this
      ensures Valid()
      ensures match InsertCategory(old(categories), name, description, pattern)
        case None => id == -1 && categories == old(categories)
        case Some(cs) => id == NextId(old(categories)) && categories == cs
      ensures transactions == old(transactions) && examples == old(examples) && budgets == old(budgets)
    {
      var r := InsertCategory(categories, name, description, pattern);
      if r.None? {
        id := -1;
      } else {
        InsertKeepsValid(categories, name, description, pattern);
        id := NextId(categories);
        categories := r.value;
      }
    }

    /** `INSERT INTO category_examples (category_id, example) ..`. */
    method AddExample(categoryId: int, text: string)
      modifies this
      ensures examples == old(examples) + [Example(categoryId, text)]
      ensures transactions == old(transactions) && categories == old(categories) && budgets == old(budgets)
    {
      examples := examples + [Example(categoryId, text)];
    }

    /** `INSERT INTO transactions (date, charge, description, category_id) ..`. */
    method AddTransaction(t: Transaction)
      modifies this
      ensures transactions == old(transactions) + [t]
      ensures categories == old(categories) && examples == old(examples) && budgets == old(budgets)
    {
      transactions := transactions + [t];
    }

    /** `UPDATE transactions SET category_id = .. WHERE <key matches>`. */
    method UpdateCategory(k: Key, categoryId: int)
      modifies this
      ensures transactions == SetCategory(old(transactions), k, categoryId)
      ensures categories == old(categories) && examples == old(examples) && budgets == old(budgets)
    {
      transactions := SetCategory(transactions, k, categoryId);
    }
  }
}
