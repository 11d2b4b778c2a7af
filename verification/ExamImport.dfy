/** Importing an exam paper: figures are filtered and grouped by question, parsed items are
    de-duplicated against the active items and each other, and what is new is upserted. */
module ExamImport {
  import opened Wrappers

  datatype Figure = Figure(page: int, hash: string, near: Option<int>)

  datatype Item = Item(number: int, question: string, choices: seq<string>, verified: bool, drift: bool)

  datatype Record = Record(question: string, choices: seq<string>, status: string, assets: seq<Figure>)

  /** What the import is given besides the paper: the key that identifies a question, the stripping
      of white space, and the formatting of an item id from its number. */
  datatype Setup = Setup(
    dedupKey: (string, seq<string>) -> string,
    strip: string -> string,
    itemId: int -> string,
    answerPage: int,
    minPages: int,
    defaultStatus: string,
    autoApprove: bool)

  // ----- Figures -----

  /** The distinct pages on which a rendered figure occurs, among the first n figures. */
  function PagesOf(figures: seq<Figure>, n: nat, hash: string): set<int>
    requires n <= |figures|
  {
    set k | 0 <= k < n && figures[k].hash == hash :: figures[k].page
  }

  predicate IsFurniture(figures: seq<Figure>, setup: Setup, hash: string) {
    |PagesOf(figures, |figures|, hash)| >= if setup.minPages > 2 then setup.minPages else 2
  }

  datatype Class = AnswerPage | Unlinked | Furniture | Grouped

  function Classify(figures: seq<Figure>, setup: Setup, f: Figure): Class {
    if f.page - 1 == setup.answerPage then AnswerPage
    else if f.near.None? then Unlinked
    else if IsFurniture(figures, setup, f.hash) then Furniture
    else Grouped
  }

  function Classes(figures: seq<Figure>, setup: Setup): seq<Class> {
    seq(|figures|, k requires 0 <= k < |figures| => Classify(figures, setup, figures[k]))
  }

  function Count(classes: seq<Class>, n: nat, c: Class): nat
    requires n <= |classes|
  {
    if n == 0 then 0 else Count(classes, n - 1, c) + if classes[n - 1] == c then 1 else 0
  }

  /** The grouped figures of one question, in order. */
  function FiguresOf(figures: seq<Figure>, classes: seq<Class>, n: nat, number: int): seq<Figure>
    requires n <= |figures| == |classes|
  {
    if n == 0 then []
    else
      var f := figures[n - 1];
      FiguresOf(figures, classes, n - 1, number)
      + if classes[n - 1] == Grouped && f.near == Some(number) then [f] else []
  }

  /** hash_pages: for every hash the set of its pages. */
  method CollectPages(figures: seq<Figure>) returns (pages: map<string, set<int>>)
    ensures forall k :: 0 <= k < |figures| ==> figures[k].hash in pages
    ensures forall h :: h in pages ==> pages[h] == PagesOf(figures, |figures|, h)
  {
    pages := map[];
    for i := 0 to |figures|
      invariant forall k :: 0 <= k < i ==> figures[k].hash in pages
      invariant forall h :: if h in pages then pages[h] == PagesOf(figures, i, h) else PagesOf(figures, i, h) == {}
    {
      var f := figures[i];
      assert forall h :: PagesOf(figures, i + 1, h) == PagesOf(figures, i, h) + if h == f.hash then {f.page} else {};
      pages := pages[f.hash := (if f.hash in pages then pages[f.hash] else {}) + {f.page}];
    }
  }

  method ClassOf(figures: seq<Figure>, setup: Setup, f: Figure, pages: map<string, set<int>>) returns (c: Class)
    requires f.hash in pages && pages[f.hash] == PagesOf(figures, |figures|, f.hash)
    ensures c == Classify(figures, setup, f)
  {
    var limit := if setup.minPages > 2 then setup.minPages else 2;
    if f.page - 1 == setup.answerPage { return AnswerPage; }
    if f.near.None? { return Unlinked; }
    if |pages[f.hash]| >= limit { return Furniture; }
    return Grouped;
  }

  function GroupAt(groups: map<int, seq<Figure>>, number: int): seq<Figure> {
    if number in groups then groups[number] else []
  }

  method ClassifyAll(figures: seq<Figure>, setup: Setup) returns (classes: seq<Class>)
    ensures classes == Classes(figures, setup)
  {
    var pages := CollectPages(figures);
    classes := [];
    for i := 0 to |figures|
      invariant |classes| == i && forall k :: 0 <= k < i ==> classes[k] == Classify(figures, setup, figures[k])
    {
      var c := ClassOf(figures, setup, figures[i], pages);
      classes := classes + [c];
    }
  }

  lemma {:induction false} GroupOneMore(figures: seq<Figure>, classes: seq<Class>, i: nat,
      groups: map<int, seq<Figure>>)
    requires i < |figures| == |classes| && (classes[i] == Grouped ==> figures[i].near.Some?)
    requires forall q :: GroupAt(groups, q) == FiguresOf(figures, classes, i, q)
    ensures var f := figures[i];
            var more := if classes[i] == Grouped then groups[f.near.value := GroupAt(groups, f.near.value) + [f]]
              else groups;
            forall q :: GroupAt(more, q) == FiguresOf(figures, classes, i + 1, q)
  {}

  /** The grouping loop: grouped figures are appended to their question's list, furniture counted. */
  method GroupFigures(figures: seq<Figure>, classes: seq<Class>) returns (groups: map<int, seq<Figure>>, skipped: nat)
    requires |figures| == |classes| && forall k :: 0 <= k < |figures| && classes[k] == Grouped ==> figures[k].near.Some?
    ensures forall q :: GroupAt(groups, q) == FiguresOf(figures, classes, |figures|, q)
    ensures skipped == Count(classes, |figures|, Furniture)
  {
    groups, skipped := map[], 0;
    for i := 0 to |figures|
      invariant forall q :: GroupAt(groups, q) == FiguresOf(figures, classes, i, q)
      invariant skipped == Count(classes, i, Furniture)
    {
      var f := figures[i];
      GroupOneMore(figures, classes, i, groups);
      if classes[i] == Furniture {
        skipped := skipped + 1;
      } else if classes[i] == Grouped {
        groups := groups[f.near.value := GroupAt(groups, f.near.value) + [f]];
      }
    }
  }

  /** Every extracted figure is in exactly one class, so the four counts add up to all figures. */
  lemma {:induction false} FiguresAccountedFor(figures: seq<Figure>, setup: Setup, n: nat)
    requires n <= |figures|
    ensures var classes := Classes(figures, setup);
            Count(classes, n, AnswerPage) + Count(classes, n, Unlinked) + Count(classes, n, Furniture)
            + Count(classes, n, Grouped) == n
  {
    if n > 0 { FiguresAccountedFor(figures, setup, n - 1); }
  }

  lemma {:induction false} GroupedAt(figures: seq<Figure>, classes: seq<Class>, n: nat, number: int, f: Figure)
    returns (k: nat)
    requires n <= |figures| == |classes| && f in FiguresOf(figures, classes, n, number)
    ensures k < n && figures[k] == f && classes[k] == Grouped && f.near == Some(number)
  {
    if f in FiguresOf(figures, classes, n - 1, number) {
      k := GroupedAt(figures, classes, n - 1, number, f);
    } else {
      k := n - 1;
    }
  }

  /** A figure grouped under a question is linked to that question, is not on the answer page, and
      its picture occurs on fewer than the furniture number of distinct pages. */
  lemma {:induction false} GroupedFigures(figures: seq<Figure>, setup: Setup, number: int, f: Figure)
    requires f in FiguresOf(figures, Classes(figures, setup), |figures|, number)
    ensures f in figures && f.near == Some(number) && f.page - 1 != setup.answerPage
    ensures |PagesOf(figures, |figures|, f.hash)| < (if setup.minPages > 2 then setup.minPages else 2)
  {
    var k := GroupedAt(figures, Classes(figures, setup), |figures|, number, f);
    assert Classify(figures, setup, figures[k]) == Grouped;
  }

  /** Exactly the figures that are linked to the question, are not on the answer page, and whose
      picture occurs on fewer than the furniture number of distinct pages are grouped under it. */
  lemma {:induction false} GroupedIff(figures: seq<Figure>, setup: Setup, number: int, f: Figure)
    ensures var pages := set k | 0 <= k < |figures| && figures[k].hash == f.hash :: figures[k].page;
            f in FiguresOf(figures, Classes(figures, setup), |figures|, number) <==>
            && f in figures && f.near == Some(number) && f.page - 1 != setup.answerPage
            && (|pages| < setup.minPages || |pages| < 2)
  {
    var classes := Classes(figures, setup);
    if f in FiguresOf(figures, classes, |figures|, number) {
      GroupedFigures(figures, setup, number, f);
    } else if f in figures && f.near == Some(number) {
      var k: nat :| k < |figures| && figures[k] == f;
      if classes[k] == Grouped { GroupedStays(figures, classes, |figures|, number, k); }
    }
  }

  lemma {:induction false} GroupedStays(figures: seq<Figure>, classes: seq<Class>, n: nat, number: int, k: nat)
    requires k < n <= |figures| == |classes| && classes[k] == Grouped && figures[k].near == Some(number)
    ensures figures[k] in FiguresOf(figures, classes, n, number)
  {
    if k < n - 1 { GroupedStays(figures, classes, n - 1, number, k); }
  }

  // ----- Items -----

  /** Only questions of ten characters and more are compared. */
  predicate Long(item: Item, setup: Setup) {
    item.question != "" && |setup.strip(item.question)| >= 10
  }

  function Key(item: Item, setup: Setup): string {
    setup.dedupKey(item.question, item.choices)
  }

  function KeyOf(r: Record, setup: Setup): string {
    setup.dedupKey(r.question, r.choices)
  }

  /** Keys of the items that are not retired. */
  function ActiveKeys(store: map<string, Record>, setup: Setup): set<string> {
    set id | id in store && store[id].status != "retired" :: KeyOf(store[id], setup)
  }

  /** An item is a duplicate of an active one, or of a long item before it in the paper. */
  ghost predicate Duplicate(items: seq<Item>, i: nat, known: set<string>, setup: Setup)
    requires i < |items|
  {
    Long(items[i], setup) && (Key(items[i], setup) in known
      || exists j :: 0 <= j < i && Long(items[j], setup) && Key(items[j], setup) == Key(items[i], setup))
  }

  function RecordOf(item: Item, assets: seq<Figure>, setup: Setup): Record {
    Record(item.question, item.choices,
           if setup.autoApprove && item.verified && !item.drift then "approved" else setup.defaultStatus,
           assets)
  }

  function AssetsOf(figures: seq<Figure>, item: Item, setup: Setup): seq<Figure> {
    FiguresOf(figures, Classes(figures, setup), |figures|, item.number)
  }

  /** The store after the first n items. */
  ghost function StoreAfter(store: map<string, Record>, figures: seq<Figure>, items: seq<Item>, n: nat,
      setup: Setup): map<string, Record>
    requires n <= |items|
  {
    if n == 0 then store
    else
      var before := StoreAfter(store, figures, items, n - 1, setup);
      if Duplicate(items, n - 1, ActiveKeys(store, setup), setup) then before
      else before[setup.itemId(items[n - 1].number) :=
        RecordOf(items[n - 1], AssetsOf(figures, items[n - 1], setup), setup)]
  }

  /** The items created among the first n, in order. */
  ghost function CreatedAmong(items: seq<Item>, n: nat, known: set<string>, setup: Setup): seq<nat>
    requires n <= |items|
  {
    if n == 0 then []
    else CreatedAmong(items, n - 1, known, setup) + if Duplicate(items, n - 1, known, setup) then [] else [n - 1]
  }

  function Total(counts: seq<nat>): nat {
    if counts == [] then 0 else Total(counts[..|counts| - 1]) + counts[|counts| - 1]
  }

  /** created: indices of the parsed items stored; assets: their asset counts, in the same order. */
  datatype ImportResult = ImportResult(created: seq<nat>, assets: seq<nat>, figuresStored: nat,
                                      duplicatesSkipped: nat, furnitureSkipped: nat)

  /** Keys known before, or of a long item among the first n. */
  ghost predicate SeenKeys(seen: set<string>, items: seq<Item>, n: nat, known: set<string>, setup: Setup)
    requires n <= |items|
  {
    forall key :: key in seen <==>
      key in known || exists j :: 0 <= j < n && Long(items[j], setup) && Key(items[j], setup) == key
  }

  lemma {:induction false} SeeItem(seen: set<string>, items: seq<Item>, n: nat, known: set<string>, setup: Setup)
    requires n < |items| && SeenKeys(seen, items, n, known, setup)
    ensures Duplicate(items, n, known, setup) <==> Long(items[n], setup) && Key(items[n], setup) in seen
    ensures SeenKeys(if Long(items[n], setup) then seen + {Key(items[n], setup)} else seen, items, n + 1, known, setup)
  {}

  /** The counters agree with the items created. */
  ghost predicate Tallied(r: ImportResult, figures: seq<Figure>, items: seq<Item>, n: nat, known: set<string>,
      setup: Setup)
    requires n <= |items|
  {
    && r.created == CreatedAmong(items, n, known, setup)
    && |r.created| + r.duplicatesSkipped == n && |r.assets| == |r.created|
    && (forall k :: 0 <= k < |r.created| ==>
          r.created[k] < n && r.assets[k] == |AssetsOf(figures, items[r.created[k]], setup)|)
    && r.figuresStored == Total(r.assets)
    && r.furnitureSkipped == Count(Classes(figures, setup), |figures|, Furniture)
  }

  function Tally(r: ImportResult, i: nat, assets: nat): ImportResult {
    r.(created := r.created + [i], assets := r.assets + [assets], figuresStored := r.figuresStored + assets)
  }

  lemma {:induction false} TallyItem(r: ImportResult, figures: seq<Figure>, items: seq<Item>, n: nat,
      known: set<string>, setup: Setup)
    requires n < |items| && Tallied(r, figures, items, n, known, setup)
    ensures Tallied(if Duplicate(items, n, known, setup) then r.(duplicatesSkipped := r.duplicatesSkipped + 1)
                    else Tally(r, n, |AssetsOf(figures, items[n], setup)|), figures, items, n + 1, known, setup)
  {}

  lemma {:induction false} StoreItem(store: map<string, Record>, figures: seq<Figure>, items: seq<Item>, n: nat,
      setup: Setup, known: set<string>)
    requires n < |items| && known == ActiveKeys(store, setup)
    ensures var before := StoreAfter(store, figures, items, n, setup);
            StoreAfter(store, figures, items, n + 1, setup) ==
            if Duplicate(items, n, known, setup) then before
            else before[setup.itemId(items[n].number) := RecordOf(items[n], AssetsOf(figures, items[n], setup), setup)]
  {}

  class AssessmentImportService {
    /** The assessment items of the domain, by id. */
    var store: map<string, Record>

    constructor (store: map<string, Record>)
      ensures this.store == store
    {
      this.store := store;
    }

    method ImportPdf(figures: seq<Figure>, items: seq<Item>, setup: Setup) returns (r: ImportResult)
      modifies this
      ensures store == StoreAfter(old(store), figures, items, |items|, setup)
      ensures Tallied(r, figures, items, |items|, ActiveKeys(old(store), setup), setup)
    {
      var classes := ClassifyAll(figures, setup);
      var groups, skipped := GroupFigures(figures, classes);
      var seen := ActiveKeys(store, setup);
      ghost var start, known := store, seen;
      r := ImportResult([], [], 0, 0, skipped);
      for i := 0 to |items|
        invariant SeenKeys(seen, items, i, known, setup)
        invariant store == StoreAfter(start, figures, items, i, setup)
        invariant Tallied(r, figures, items, i, known, setup)
      {
        var item := items[i];
        SeeItem(seen, items, i, known, setup);
        TallyItem(r, figures, items, i, known, setup);
        StoreItem(start, figures, items, i, setup, known);
        var duplicate := Long(item, setup) && Key(item, setup) in seen;
        seen := if Long(item, setup) then seen + {Key(item, setup)} else seen;
        if duplicate {
          r := r.(duplicatesSkipped := r.duplicatesSkipped + 1);
        } else {
          var assets := GroupAt(groups, item.number);
          assert assets == AssetsOf(figures, item, setup);
          store := store[setup.itemId(item.number) := RecordOf(item, assets, setup)];
          r := Tally(r, i, |assets|);
        }
      }
    }
  }

  // ----- What an import guarantees -----

  lemma {:induction false} CreatedAreTheNew(items: seq<Item>, n: nat, known: set<string>, setup: Setup, i: nat)
    requires n <= |items|
    ensures i in CreatedAmong(items, n, known, setup) <==> i < n && !Duplicate(items, i, known, setup)
  {
    if n > 0 { CreatedAreTheNew(items, n - 1, known, setup, i); }
  }

  /** In terms of texts and stored items: an item is created unless its question has ten characters or
      more without the white space around it, and its key is that of an item in the store that is
      not retired or of such a question before it in the paper. */
  lemma {:induction false} CreatedIff(store: map<string, Record>, items: seq<Item>, setup: Setup, i: nat)
    requires i < |items|
    ensures var item := items[i];
            var key := setup.dedupKey(item.question, item.choices);
            i !in CreatedAmong(items, |items|, ActiveKeys(store, setup), setup) <==>
            && item.question != "" && |setup.strip(item.question)| >= 10
            && (|| (exists r :: r in store.Values && r.status != "retired" &&
                      setup.dedupKey(r.question, r.choices) == key)
                || (exists j :: 0 <= j < i && items[j].question != "" && |setup.strip(items[j].question)| >= 10 &&
                      setup.dedupKey(items[j].question, items[j].choices) == key))
  {
    CreatedAreTheNew(items, |items|, ActiveKeys(store, setup), setup, i);
  }

  /** What is stored of a created item: its texts and figures, and approved if that is automatic, the
      answer is verified and the language did not drift; otherwise the status asked for. */
  lemma {:induction false} RecordMeaning(item: Item, assets: seq<Figure>, setup: Setup)
    ensures var r := RecordOf(item, assets, setup);
            && r.question == item.question && r.choices == item.choices && r.assets == assets
            && (setup.autoApprove && item.verified && !item.drift ==> r.status == "approved")
            && (!setup.autoApprove || !item.verified || item.drift ==> r.status == setup.defaultStatus)
  {}

  /** Two created long questions never share a key, nor does one share it with an item that was
      active before; and a parsed item is left out only if it shares one. */
  lemma {:induction false} NoDuplicateCreated(items: seq<Item>, known: set<string>, setup: Setup, i: nat, j: nat)
    requires i in CreatedAmong(items, |items|, known, setup) && j in CreatedAmong(items, |items|, known, setup)
    requires i != j
    ensures i < |items| && j < |items|
    ensures Long(items[i], setup) ==> Key(items[i], setup) !in known
    ensures Long(items[i], setup) && Long(items[j], setup) ==> Key(items[i], setup) != Key(items[j], setup)
  {
    CreatedAreTheNew(items, |items|, known, setup, i);
    CreatedAreTheNew(items, |items|, known, setup, j);
    assert i < j || j < i;
  }

  // ----- Which items an import overwrites -----

  /** The last item among the first n that was created under this id. */
  ghost function LastCreated(items: seq<Item>, n: nat, known: set<string>, setup: Setup, id: string): Option<nat>
    requires n <= |items|
  {
    if n == 0 then None
    else if !Duplicate(items, n - 1, known, setup) && setup.itemId(items[n - 1].number) == id then Some(n - 1)
    else LastCreated(items, n - 1, known, setup, id)
  }

  /** After any import, whether ids collide or not, an id holds the record of the last item created
      under it, and what it held before when there is none: an import overwrites exactly the stored
      items whose ids its created items have. */
  lemma {:induction false} StoreById(store: map<string, Record>, figures: seq<Figure>, items: seq<Item>, n: nat,
      setup: Setup, id: string)
    requires n <= |items|
    ensures var after, known := StoreAfter(store, figures, items, n, setup), ActiveKeys(store, setup);
            var w := LastCreated(items, n, known, setup, id);
            if w.Some? then
              && w.value < n && !Duplicate(items, w.value, known, setup) && setup.itemId(items[w.value].number) == id
              && id in after
              && after[id] == RecordOf(items[w.value], AssetsOf(figures, items[w.value], setup), setup)
            else (id in after <==> id in store) && (id in store ==> after[id] == store[id])
  {
    if n > 0 { StoreById(store, figures, items, n - 1, setup, id); }
  }

  ghost predicate Retired(items: seq<Item>, figures: seq<Figure>, setup: Setup, i: nat)
    requires i < |items|
  {
    RecordOf(items[i], AssetsOf(figures, items[i], setup), setup).status == "retired"
  }

  ghost predicate AllLong(items: seq<Item>, setup: Setup) {
    forall i :: 0 <= i < |items| ==> Long(items[i], setup)
  }

  /** Every created item was stored as something other than retired, and no item created after it
      has its id. */
  ghost predicate CreatedStay(store: map<string, Record>, figures: seq<Figure>, items: seq<Item>, setup: Setup) {
    var known := ActiveKeys(store, setup);
    forall i: nat :: i < |items| && !Duplicate(items, i, known, setup) ==>
      && !Retired(items, figures, setup, i)
      && LastCreated(items, |items|, known, setup, setup.itemId(items[i].number)) == Some(i)
  }

  /** An active item of this key that the import does not overwrite. */
  ghost predicate KeptHolder(store: map<string, Record>, items: seq<Item>, setup: Setup, key: string, id: string) {
    && id in store && store[id].status != "retired" && KeyOf(store[id], setup) == key
    && LastCreated(items, |items|, ActiveKeys(store, setup), setup, id).None?
  }

  /** Every stored item that the paper repeats is still there under some id. */
  ghost predicate RepeatedStay(store: map<string, Record>, items: seq<Item>, setup: Setup) {
    forall i: nat :: i < |items| && Key(items[i], setup) in ActiveKeys(store, setup) ==>
      exists id :: KeptHolder(store, items, setup, Key(items[i], setup), id)
  }

  ghost predicate Settled(store: map<string, Record>, figures: seq<Figure>, items: seq<Item>, setup: Setup) {
    AllLong(items, setup) && CreatedStay(store, figures, items, setup) && RepeatedStay(store, items, setup)
  }

  lemma {:induction false} Holder(store: map<string, Record>, setup: Setup, key: string) returns (id: string)
    requires key in ActiveKeys(store, setup)
    ensures id in store && store[id].status != "retired" && KeyOf(store[id], setup) == key
  {
    id :| id in store && store[id].status != "retired" && KeyOf(store[id], setup) == key;
  }

  lemma {:induction false} IsActive(store: map<string, Record>, setup: Setup, id: string)
    requires id in store && store[id].status != "retired"
    ensures KeyOf(store[id], setup) in ActiveKeys(store, setup)
  {}

  /** After a settled import every item's key is active: its own, or that of the item it repeats. */
  lemma {:induction false} KeyIsActiveAfterwards(store: map<string, Record>, figures: seq<Figure>,
      items: seq<Item>, setup: Setup, i: nat)
    requires Settled(store, figures, items, setup) && i < |items|
    ensures Key(items[i], setup) in ActiveKeys(StoreAfter(store, figures, items, |items|, setup), setup)
  {
    var known, after := ActiveKeys(store, setup), StoreAfter(store, figures, items, |items|, setup);
    if !Duplicate(items, i, known, setup) {
      StoreById(store, figures, items, |items|, setup, setup.itemId(items[i].number));
      IsActive(after, setup, setup.itemId(items[i].number));
    } else if Key(items[i], setup) in known {
      var id :| KeptHolder(store, items, setup, Key(items[i], setup), id);
      StoreById(store, figures, items, |items|, setup, id);
      IsActive(after, setup, id);
    } else {
      var j :| 0 <= j < i && Long(items[j], setup) && Key(items[j], setup) == Key(items[i], setup);
      KeyIsActiveAfterwards(store, figures, items, setup, j);
    }
  }

  /** An active item after the import is a kept holder of its key or the created item of that key. */
  lemma {:induction false} HolderOrigin(store: map<string, Record>, figures: seq<Figure>, items: seq<Item>,
      setup: Setup, i: nat, id: string)
    requires AllLong(items, setup) && i < |items|
    requires var after := StoreAfter(store, figures, items, |items|, setup);
             id in after && after[id].status != "retired" && KeyOf(after[id], setup) == Key(items[i], setup)
    ensures if Key(items[i], setup) in ActiveKeys(store, setup) then
              KeptHolder(store, items, setup, Key(items[i], setup), id)
            else !Duplicate(items, i, ActiveKeys(store, setup), setup) ==>
              && LastCreated(items, |items|, ActiveKeys(store, setup), setup, id) == Some(i)
              && id == setup.itemId(items[i].number) && !Retired(items, figures, setup, i)
  {
    var known := ActiveKeys(store, setup);
    StoreById(store, figures, items, |items|, setup, id);
    var w := LastCreated(items, |items|, known, setup, id);
    if w.None? {
      IsActive(store, setup, id);
    } else {
      assert i < w.value || i == w.value || w.value < i;
    }
  }

  lemma {:induction false} CreatedNothingIff(items: seq<Item>, n: nat, known: set<string>, setup: Setup)
    requires n <= |items|
    ensures CreatedAmong(items, n, known, setup) == [] <==> AllDuplicates(items, n, known, setup)
  {
    if n > 0 { CreatedNothingIff(items, n - 1, known, setup); }
  }

  ghost predicate AllDuplicates(items: seq<Item>, n: nat, known: set<string>, setup: Setup)
    requires n <= |items|
  {
    forall i: nat :: i < n ==> Duplicate(items, i, known, setup)
  }

  /** When every item is a duplicate, the first of each key repeats an active item. */
  lemma {:induction false} AllKnown(items: seq<Item>, known: set<string>, setup: Setup, i: nat)
    requires AllDuplicates(items, |items|, known, setup) && i < |items|
    ensures Long(items[i], setup) && Key(items[i], setup) in known
  {
    assert Duplicate(items, i, known, setup);
    if Key(items[i], setup) !in known {
      var j :| 0 <= j < i && Long(items[j], setup) && Key(items[j], setup) == Key(items[i], setup);
      AllKnown(items, known, setup, j);
    }
  }

  /** The only item that is not a duplicate, if there is one, is the only one created. */
  lemma {:induction false} OnlyOneCreated(store: map<string, Record>, figures: seq<Figure>, items: seq<Item>, n: nat,
      setup: Setup, i: nat)
    requires n <= |items|
    requires forall j :: 0 <= j < n ==> (Duplicate(items, j, ActiveKeys(store, setup), setup) <==> j != i)
    ensures CreatedAmong(items, n, ActiveKeys(store, setup), setup) == if i < n then [i] else []
    ensures StoreAfter(store, figures, items, n, setup) ==
            if i < n then store[setup.itemId(items[i].number) :=
              RecordOf(items[i], AssetsOf(figures, items[i], setup), setup)]
            else store
  {
    if n > 0 { OnlyOneCreated(store, figures, items, n - 1, setup, i); }
  }

  lemma {:induction false} QuietReimportIsSettled(store: map<string, Record>, figures: seq<Figure>,
      items: seq<Item>, setup: Setup)
    requires var after := StoreAfter(store, figures, items, |items|, setup);
             AllDuplicates(items, |items|, ActiveKeys(after, setup), setup)
    ensures Settled(store, figures, items, setup)
  {
    var after, known := StoreAfter(store, figures, items, |items|, setup), ActiveKeys(store, setup);
    forall i | 0 <= i < |items| ensures Long(items[i], setup) {
      AllKnown(items, ActiveKeys(after, setup), setup, i);
    }
    forall i: nat | i < |items|
      ensures Key(items[i], setup) in known ==> exists id :: KeptHolder(store, items, setup, Key(items[i], setup), id)
      ensures Duplicate(items, i, known, setup)
              || (!Retired(items, figures, setup, i)
                  && LastCreated(items, |items|, known, setup, setup.itemId(items[i].number)) == Some(i))
    {
      AllKnown(items, ActiveKeys(after, setup), setup, i);
      var id := Holder(after, setup, Key(items[i], setup));
      HolderOrigin(store, figures, items, setup, i, id);
    }
  }

  /** Importing the same paper again creates nothing, and changes nothing, exactly when every
      question is long, every item created the first time is still there and not retired, and every
      stored item the paper repeats was not overwritten. */
  lemma {:induction false} ReimportCreatesNothingIff(store: map<string, Record>, figures: seq<Figure>,
      items: seq<Item>, setup: Setup)
    ensures var after := StoreAfter(store, figures, items, |items|, setup);
            && (CreatedAmong(items, |items|, ActiveKeys(after, setup), setup) == [] <==>
                Settled(store, figures, items, setup))
            && (CreatedAmong(items, |items|, ActiveKeys(after, setup), setup) == [] ==>
                StoreAfter(after, figures, items, |items|, setup) == after)
  {
    var after := StoreAfter(store, figures, items, |items|, setup);
    CreatedNothingIff(items, |items|, ActiveKeys(after, setup), setup);
    if Settled(store, figures, items, setup) {
      forall i: nat | i < |items| ensures Duplicate(items, i, ActiveKeys(after, setup), setup) {
        KeyIsActiveAfterwards(store, figures, items, setup, i);
      }
    }
    if AllDuplicates(items, |items|, ActiveKeys(after, setup), setup) {
      OnlyOneCreated(after, figures, items, |items|, setup, |items|);
      QuietReimportIsSettled(store, figures, items, setup);
    }
  }

  /** Item ids distinct within the paper and not in the store. */
  ghost predicate FreshIds(store: map<string, Record>, items: seq<Item>, setup: Setup) {
    && (forall i :: 0 <= i < |items| ==> setup.itemId(items[i].number) !in store)
    && (forall i, j :: 0 <= i < j < |items| ==> setup.itemId(items[i].number) != setup.itemId(items[j].number))
  }

  lemma {:induction false} FreshIdLast(store: map<string, Record>, items: seq<Item>, n: nat, setup: Setup, i: nat)
    requires FreshIds(store, items, setup) && i < |items| && n <= |items|
    ensures LastCreated(items, n, ActiveKeys(store, setup), setup, setup.itemId(items[i].number)) ==
            if i < n && !Duplicate(items, i, ActiveKeys(store, setup), setup) then Some(i) else None
  {
    if n > 0 {
      FreshIdLast(store, items, n - 1, setup, i);
      assert i < n - 1 || i == n - 1 || n - 1 < i;
    }
  }

  lemma {:induction false} StoredIdNeverCreated(store: map<string, Record>, items: seq<Item>, n: nat, setup: Setup,
      id: string)
    requires FreshIds(store, items, setup) && id in store && n <= |items|
    ensures LastCreated(items, n, ActiveKeys(store, setup), setup, id) == None
  {
    if n > 0 { StoredIdNeverCreated(store, items, n - 1, setup, id); }
  }

  /** With one unused prefix to a paper and no number twice, what matters is that every question is
      long and no created item was stored retired. */
  lemma {:induction false} SettledWithFreshIds(store: map<string, Record>, figures: seq<Figure>, items: seq<Item>,
      setup: Setup)
    requires FreshIds(store, items, setup)
    ensures Settled(store, figures, items, setup) <==>
            && AllLong(items, setup)
            && forall i: nat :: i < |items| && !Duplicate(items, i, ActiveKeys(store, setup), setup) ==>
                 !Retired(items, figures, setup, i)
  {
    forall i: nat | i < |items| && !Duplicate(items, i, ActiveKeys(store, setup), setup)
      ensures LastCreated(items, |items|, ActiveKeys(store, setup), setup, setup.itemId(items[i].number)) == Some(i)
    {
      FreshIdLast(store, items, |items|, setup, i);
    }
    forall i: nat | i < |items| && Key(items[i], setup) in ActiveKeys(store, setup)
      ensures exists id :: KeptHolder(store, items, setup, Key(items[i], setup), id)
    {
      var id := Holder(store, setup, Key(items[i], setup));
      StoredIdNeverCreated(store, items, |items|, setup, id);
      assert KeptHolder(store, items, setup, Key(items[i], setup), id);
    }
  }

  // ----- A curator in between -----

  /** update_quality: the item is taken out of use. */
  function Retire(store: map<string, Record>, id: string): map<string, Record>
    requires id in store
  {
    store[id := store[id].(status := "retired")]
  }

  /** With a created item retired after a settled import, the other questions are duplicates still. */
  lemma {:induction false} OthersStillActive(store: map<string, Record>, figures: seq<Figure>, items: seq<Item>,
      setup: Setup, i: nat, j: nat)
    requires Settled(store, figures, items, setup)
    requires i < |items| && !Duplicate(items, i, ActiveKeys(store, setup), setup) && j < |items| && j != i
    requires setup.itemId(items[i].number) in StoreAfter(store, figures, items, |items|, setup)
    ensures var later := Retire(StoreAfter(store, figures, items, |items|, setup), setup.itemId(items[i].number));
            Duplicate(items, j, ActiveKeys(later, setup), setup)
  {
    var after, id := StoreAfter(store, figures, items, |items|, setup), setup.itemId(items[i].number);
    if Key(items[j], setup) == Key(items[i], setup) {
      assert i < j || j < i;
    } else {
      KeyIsActiveAfterwards(store, figures, items, setup, j);
      var holder := Holder(after, setup, Key(items[j], setup));
      StoreById(store, figures, items, |items|, setup, id);
      assert holder != id;
      IsActive(Retire(after, id), setup, holder);
    }
  }

  /** An item that a curator retires after a settled import comes back with the next import of the
      same paper: it alone is created again, under its old id, and the store is what it was before
      the retirement. */
  lemma {:induction false} RetiredItemComesBack(store: map<string, Record>, figures: seq<Figure>, items: seq<Item>,
      setup: Setup, i: nat)
    requires Settled(store, figures, items, setup)
    requires i in CreatedAmong(items, |items|, ActiveKeys(store, setup), setup)
    ensures i < |items|
    ensures var after, id := StoreAfter(store, figures, items, |items|, setup), setup.itemId(items[i].number);
            && id in after
            && var later := Retire(after, id);
               && CreatedAmong(items, |items|, ActiveKeys(later, setup), setup) == [i]
               && StoreAfter(later, figures, items, |items|, setup) == after
  {
    CreatedAreTheNew(items, |items|, ActiveKeys(store, setup), setup, i);
    var after, id := StoreAfter(store, figures, items, |items|, setup), setup.itemId(items[i].number);
    StoreById(store, figures, items, |items|, setup, id);
    var later := Retire(after, id);
    forall j | 0 <= j < |items| && j != i ensures Duplicate(items, j, ActiveKeys(later, setup), setup) {
      OthersStillActive(store, figures, items, setup, i, j);
    }
    assert !Duplicate(items, i, ActiveKeys(later, setup), setup) by {
      if Key(items[i], setup) in ActiveKeys(later, setup) {
        var holder := Holder(later, setup, Key(items[i], setup));
        HolderOrigin(store, figures, items, setup, i, holder);
      }
    }
    OnlyOneCreated(later, figures, items, |items|, setup, i);
  }
}
