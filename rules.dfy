/** budget_tracker.c's classifier (get_category_id, budget_tracker.c:11-104):
    the first category whose regular expression matches the description
    wins; otherwise the operator picks from a numbered menu, creates a new
    category or skips the item. */
module Rules {
  import opened Common
  import opened Store

  /** The POSIX regex engine as two abstract capabilities: whether a
      pattern compiles (regcomp with REG_EXTENDED) and whether a compiled
      pattern matches a text (regexec). */
  datatype Regex = Regex(compiles: string -> bool, matches: (string, string) -> bool)

  /** The operator's reply to the menu: the number scanf reads, and the
      line fgets reads next when a new category is asked for. */
  datatype Answer = Answer(choice: int, line: string)

  /** A category row the pattern phase accepts: its pattern is not NULL,
      compiles and matches the description. */
  predicate PatternHits(c: Category, re: Regex, description: string)
  {
    c.pattern.Some? && re.compiles(c.pattern.value) && re.matches(c.pattern.value, description)
  }

  /** Position of the first category, in listing order, whose pattern hits. */
  function FirstMatch(cs: seq<Category>, re: Regex, description: string): (r: Option<nat>)
    ensures r.Some? ==> r.value < |cs| && PatternHits(cs[r.value], re, description)
    ensures r.Some? ==> forall i :: 0 <= i < r.value ==> !PatternHits(cs[i], re, description)
    ensures r.None? <==> forall i :: 0 <= i < |cs| ==> !PatternHits(cs[i], re, description)
    decreases |cs|
  {
    if cs == [] then None
    else if PatternHits(cs[0], re, description) then Some(0)
    else match FirstMatch(cs[1..], re, description)
      case None => None
      case Some(k) => Some(k + 1)
  }

  /** The text before the first newline (strcspn(s, "\n")). */
  function StripNewline(s: string): (r: string)
    ensures |r| <= |s| && r == s[..|r|]
    ensures forall i :: 0 <= i < |r| ==> r[i] != '\n'
    ensures |r| < |s| ==> s[|r|] == '\n'
  {
    if s == [] || s[0] == '\n' then [] else [s[0]] + StripNewline(s[1..])
  }

  /** The new category's label: what fgets reads into a 256-byte buffer,
      cut at its newline. */
  function NewLabel(line: string): (name: string)
    ensures |name| <= 255 && forall i :: 0 <= i < |name| ==> name[i] != '\n'
  {
    StripNewline(if |line| <= 255 then line else line[..255])
  }

  /** The menu after a failed pattern phase. The n categories are numbered
      1..n in the order the menu's query lists them (by label), n+1 asks for
      a new category and n+2 skips. */
  function Menu(cs: seq<Category>, answer: Answer): (int, seq<Category>)
  {
    var n := |cs|;
    if answer.choice == n + 2 then (-1, cs)
    else if answer.choice == n + 1 then
      match InsertCategory(cs, NewLabel(answer.line), None, None)
      case None => (-1, cs)
      case Some(cs') => (NextId(cs), cs')
    else if 1 <= answer.choice <= n then (Listed(cs)[answer.choice - 1].id, cs)
    else (-1, cs)
  }

  /** get_category_id: the chosen id (-1 for none) and the category table
      afterwards. A category query that cannot be prepared gives -1. */
  function Classify(cs: seq<Category>, re: Regex, description: string, answer: Answer, queryFails: bool)
    : (int, seq<Category>)
  {
    if queryFails then (-1, cs)
    else match FirstMatch(cs, re, description)
      case Some(k) => (cs[k].id, cs)
      case None => Menu(cs, answer)
  }

  /** When some pattern hits, the first such category is chosen, no menu is
      shown and no category is created. */
  lemma MatchSkipsMenu(cs: seq<Category>, re: Regex, description: string, answer: Answer, k: nat)
    requires k < |cs| && PatternHits(cs[k], re, description)
    requires forall i :: 0 <= i < k ==> !PatternHits(cs[i], re, description)
    ensures Classify(cs, re, description, answer, false) == (cs[k].id, cs)
  {
    var r := FirstMatch(cs, re, description);
    assert r.Some?;
    assert r.value == k;
  }

  /** What the classifier returns is -1 or the id of a category in the table
      afterwards; the table keeps its constraints and either stays as it was
      or gains one category, labelled with the operator's line, whose id is
      the result. */
  lemma ClassifyResult(cs: seq<Category>, re: Regex, description: string, answer: Answer, queryFails: bool)
    requires ValidCategories(cs)
    ensures var (id, cs') := Classify(cs, re, description, answer, queryFails);
      && ValidCategories(cs')
      && (id == -1 || exists i :: 0 <= i < |cs'| && cs'[i].id == id)
      && (cs' == cs || (id >= 1 && cs' == cs + [Category(id, NewLabel(answer.line), None, None)]))
  {
    var (id, cs') := Classify(cs, re, description, answer, queryFails);
    if !queryFails && FirstMatch(cs, re, description).None? && 1 <= answer.choice <= |cs| {
      ListedRow(cs, answer.choice - 1);
    }
    if !queryFails && FirstMatch(cs, re, description).None? && answer.choice == |cs| + 1 {
      var ins := InsertCategory(cs, NewLabel(answer.line), None, None);
      if ins.Some? {
        InsertKeepsValid(cs, NewLabel(answer.line), None, None);
        assert cs'[|cs|].id == id;
      }
    }
  }

  /** After no pattern hit: a menu choice in 1..n gives the id of the
      category listed at that number, counting in label order, and any
      number outside 1..n+1 (n+2, "skip", included) gives -1, neither
      changing the table; n+1 inserts the operator's label and gives the new
      id, or -1 when the insert fails. That the listing holds every category
      once, sorted by label, is Store.Listed's contract; MenuListsByLabel
      shows a case where this differs from insertion order. */
  lemma MenuChoices(cs: seq<Category>, re: Regex, description: string, answer: Answer)
    requires FirstMatch(cs, re, description).None?
    ensures 1 <= answer.choice <= |cs| ==>
      Classify(cs, re, description, answer, false) == (Listed(cs)[answer.choice - 1].id, cs)
    ensures (answer.choice < 1 || answer.choice > |cs| + 1) ==>
      Classify(cs, re, description, answer, false) == (-1, cs)
    ensures answer.choice == |cs| + 1 ==>
      Classify(cs, re, description, answer, false) ==
        match InsertCategory(cs, NewLabel(answer.line), None, None)
        case None => (-1, cs)
        case Some(cs') => (NextId(cs), cs')
  {
  }

  /** The menu counts in label order, not in insertion order: with "Other"
      (id 1) and "Dining" (id 2) and no pattern, choice 1 is Dining. */
  lemma MenuListsByLabel(re: Regex, description: string)
    ensures var cs := [Category(1, "Other", None, None), Category(2, "Dining", None, None)];
      Classify(cs, re, description, Answer(1, ""), false) == (2, cs)
  {
    var cs := [Category(1, "Other", None, None), Category(2, "Dining", None, None)];
    assert cs[..1] == [cs[0]];
    assert LexLess("Dining", "Other");
    assert Listed(cs) == [cs[1], cs[0]];
  }

  /** get_category_id as the source runs it: a pass over the category rows
      for the first pattern that hits, then a pass that numbers the menu,
      then either the skip, the new category, or a second pass that counts
      up to the chosen number. */
  method ClassifyInteractive(ledger: Ledger, re: Regex, description: string, answer: Answer, queryFails: bool)
    returns (id: int)
    requires ledger.Valid()
    modifies ledger
    ensures ledger.Valid()
    ensures (id, ledger.categories) == Classify(old(ledger.categories), re, description, answer, queryFails)
    ensures ledger.transactions == old(ledger.transactions) && ledger.examples == old(ledger.examples)
    ensures ledger.budgets == old(ledger.budgets)
  {
    if queryFails {
      return -1;
    }
    var cs := ledger.categories;
    id := -1;
    var matchFound := false;
    var i := 0;
    while i < |cs|
      invariant 0 <= i <= |cs|
      invariant forall j :: 0 <= j < i ==> !PatternHits(cs[j], re, description)
    {
      if PatternHits(cs[i], re, description) {
        id := cs[i].id;
        matchFound := true;
        break;
      }
      i := i + 1;
    }
    if matchFound {
      MatchSkipsMenu(cs, re, description, answer, i);
      return;
    }
    // The listing, by label: the source prints one numbered line per
    // category, then "new" and "skip". Printing is not modelled, so the loop
    // only numbers the options.
    var listed := Listed(cs);
    var option := 1;
    i := 0;
    while i < |listed|
      invariant 0 <= i <= |listed| && option == i + 1
    {
      option := option + 1;
      i := i + 1;
    }
    var newOption := option;
    option := option + 1;
    if answer.choice == option {
      return -1;
    } else if answer.choice == newOption {
      id := ledger.AddCategory(NewLabel(answer.line), None, None);
    } else {
      // The finished statement starts over from its first row.
      option := 1;
      i := 0;
      while i < |listed|
        invariant 0 <= i <= |listed| && option == i + 1
        invariant id == -1 && !(1 <= answer.choice <= i)
      {
        if option == answer.choice {
          id := listed[i].id;
          break;
        }
        option := option + 1;
        i := i + 1;
      }
    }
  }
}
