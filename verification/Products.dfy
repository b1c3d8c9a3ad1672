/** The product table, and what creating, patching and deleting do to it one request at a time. */
module Products {
  import opened Wrappers
  import opened Timestamps
  import opened Cursor
  import opened CatalogDomain

  type Table = map<Int64, Product>

  /** The fields of a PATCH that are present. */
  datatype ProductUpdate = ProductUpdate(
    productCode: Option<string>, title: Option<string>, slug: Option<string>, shortDescription: Option<string>,
    department: Option<string>, category: Option<string>, primaryImageUrl: Option<string>, active: Option<bool>)

  datatype Op = Create(product: Product) | Patch(id: Int64, update: ProductUpdate) | Delete(id: Int64)

  /** A request with NOW() of its transaction, and the id the sequence would give its INSERT. */
  datatype Edit = Edit(op: Op, now: Time, newId: Int64)

  datatype Error = Invalid | NotFound | Conflict | Internal

  datatype Reply = Saved(product: Product) | Deleted

  type Outcome = Result<Reply, Error>

  function Or<T>(change: Option<T>, current: T): T {
    if change.Some? then change.value else current
  }

  function Merge(p: Product, u: ProductUpdate): Product {
    p.(productCode := Or(u.productCode, p.productCode), title := Or(u.title, p.title), slug := Or(u.slug, p.slug),
       shortDescription := Or(u.shortDescription, p.shortDescription), department := Or(u.department, p.department),
       category := Or(u.category, p.category), primaryImageUrl := Or(u.primaryImageUrl, p.primaryImageUrl),
       active := Or(u.active, p.active))
  }

  predicate SameKey(p: Product, q: Product) {
    p.productCode == q.productCode || p.slug == q.slug
  }

  /** Another row has the product code or the slug. */
  predicate Taken(table: Table, id: Int64, p: Product) {
    exists other :: other in table && other != id && SameKey(table[other], p)
  }

  /** An INSERT of the row, or an UPDATE of the row with this id. */
  function Store(table: Table, id: Int64, p: Product, now: Time): (Table, Outcome) {
    if Taken(table, id, p) then (table, Err(Conflict))
    else
      var saved := p.(id := id, updatedAt := now);
      (table[id := saved], Ok(Saved(saved)))
  }

  /** The same for a product that has to pass Validate first. */
  function Save(table: Table, id: Int64, p: Product, now: Time): (Table, Outcome) {
    if ValidProduct(p) then Store(table, id, p, now) else (table, Err(Invalid))
  }

  function Apply(table: Table, e: Edit): (Table, Outcome) {
    match e.op
    case Create(p) => Save(table, e.newId, p, e.now)
    case Patch(id, u) => if id in table then Save(table, id, Merge(table[id], u), e.now) else (table, Err(NotFound))
    case Delete(id) => if id in table then (table - {id}, Ok(Deleted)) else (table, Err(NotFound))
  }

  function After(table: Table, edits: seq<Edit>): Table {
    if edits == [] then table else Apply(After(table, edits[..|edits| - 1]), edits[|edits| - 1]).0
  }

  function Answer(table: Table, edits: seq<Edit>, i: nat): Outcome
    requires i < |edits|
  {
    Apply(After(table, edits[..i]), edits[i]).1
  }

  /** A request answered with an error has changed nothing. */
  lemma FailureChangesNothing(table: Table, edits: seq<Edit>, i: nat)
    requires i < |edits| && Answer(table, edits, i).Err?
    ensures After(table, edits[..i + 1]) == After(table, edits[..i])
  {
    assert edits[..i + 1][..i] == edits[..i];
  }

  // ---- What each edit means ----

  /** Another row carries the product code or the slug. */
  ghost predicate InUse(table: Table, id: Int64, code: string, slug: string) {
    exists other :: other in table && other != id && (table[other].productCode == code || table[other].slug == slug)
  }

  ghost predicate OnlyRow(table: Table, table': Table, id: Int64) {
    forall other :: other != id ==>
      (other in table <==> other in table') && (other in table ==> table'[other] == table[other])
  }

  /** The patch asks for the code or the slug of this row. */
  predicate AsksFor(u: ProductUpdate, p: Product) {
    (u.productCode.Some? && u.productCode.value == p.productCode) || (u.slug.Some? && u.slug.value == p.slug)
  }

  /** A field holds what was asked for, and what it held before if nothing was. */
  ghost predicate Takes<T>(now: T, change: Option<T>, before: T) {
    match change
    case Some(value) => now == value
    case None => now == before
  }

  ghost predicate PatchedAs(row: Product, u: ProductUpdate, was: Product) {
    && Takes(row.productCode, u.productCode, was.productCode) && Takes(row.title, u.title, was.title)
    && Takes(row.slug, u.slug, was.slug) && Takes(row.shortDescription, u.shortDescription, was.shortDescription)
    && Takes(row.department, u.department, was.department) && Takes(row.category, u.category, was.category)
    && Takes(row.primaryImageUrl, u.primaryImageUrl, was.primaryImageUrl) && Takes(row.active, u.active, was.active)
  }

  /** The columns that no PATCH names. */
  ghost predicate SameUnpatched(p: Product, q: Product) {
    && p.id == q.id && p.externalProductId == q.externalProductId && p.description == q.description
    && p.additionalInfo == q.additionalInfo && p.subcategory == q.subcategory && p.tags == q.tags
    && p.baseSku == q.baseSku
  }

  /**
   * Creating a product is refused exactly when its code, title or slug is blank or
   * another row has its code or slug; otherwise the new row holds every field as it
   * was sent, and is the answer.
   */
  lemma CreationMeans(table: Table, p: Product, now: Time, newId: Int64)
    ensures var (table', r) := Apply(table, Edit(Create(p), now, newId));
            && (r == Err(Invalid) <==> Blank(p.productCode) || Blank(p.title) || Blank(p.slug))
            && (r == Err(Conflict) <==> r != Err(Invalid) && InUse(table, newId, p.productCode, p.slug))
            && (r.Err? ==> table' == table && (r == Err(Invalid) || r == Err(Conflict)))
            && (r.Ok? ==>
                  && OnlyRow(table, table', newId) && newId in table' && r.value == Saved(table'[newId])
                  && var row := table'[newId];
                     && row.id == newId && row.updatedAt == now && row.productCode == p.productCode
                     && row.externalProductId == p.externalProductId && row.title == p.title && row.slug == p.slug
                     && row.shortDescription == p.shortDescription && row.description == p.description
                     && row.additionalInfo == p.additionalInfo && row.department == p.department
                     && row.category == p.category && row.subcategory == p.subcategory && row.tags == p.tags
                     && row.baseSku == p.baseSku && row.primaryImageUrl == p.primaryImageUrl && row.active == p.active)
  {
    if InUse(table, newId, p.productCode, p.slug) {
      var other :| other in table && other != newId
                   && (table[other].productCode == p.productCode || table[other].slug == p.slug);
      assert SameKey(table[other], p);
    }
  }

  /**
   * A patch of a row that is in order is refused exactly when there is no row, it
   * asks for a blank code, title or slug, or for a code or slug of another row;
   * otherwise each column holds what was asked of it, or what it held before.
   */
  lemma PatchMeans(table: Table, id: Int64, u: ProductUpdate, now: Time, newId: Int64)
    requires Tidy(table)
    ensures var (table', r) := Apply(table, Edit(Patch(id, u), now, newId));
            && (r == Err(NotFound) <==> id !in table)
            && (r == Err(Invalid) <==>
                  id in table && ((u.productCode.Some? && Blank(u.productCode.value))
                                  || (u.title.Some? && Blank(u.title.value)) || (u.slug.Some? && Blank(u.slug.value))))
            && (r == Err(Conflict) <==>
                  && id in table && r != Err(Invalid)
                  && exists other :: other in table && other != id && AsksFor(u, table[other]))
            && (r.Err? ==> table' == table && r != Err(Internal))
            && (r.Ok? ==>
                  && OnlyRow(table, table', id) && id in table && id in table' && r.value == Saved(table'[id])
                  && table'[id].updatedAt == now && SameUnpatched(table'[id], table[id])
                  && PatchedAs(table'[id], u, table[id]))
  {
    var e := Edit(Patch(id, u), now, newId);
    if id in table {
      PatchFate(table, e);
      PatchedColumns(table[id], u, e);
      CollidesMeans(table, id, u);
    }
  }

  lemma CollidesMeans(table: Table, id: Int64, u: ProductUpdate)
    ensures Collides(table, id, u) <==> exists other :: other in table && other != id && AsksFor(u, table[other])
  {
    if Collides(table, id, u) {
      var other :| other in table && other != id
                   && (u.productCode == Some(table[other].productCode) || u.slug == Some(table[other].slug));
      assert AsksFor(u, table[other]);
    }
  }

  /** Merging applies exactly the fields that are present. */
  lemma MergeMeans(p: Product, u: ProductUpdate)
    ensures PatchedAs(Merge(p, u), u, p) && SameUnpatched(Merge(p, u), p) && Merge(p, u).updatedAt == p.updatedAt
  {
  }

  lemma AllEight(row: Product, p: Product, u: ProductUpdate)
    requires row == p.(productCode := Or(u.productCode, p.productCode), title := Or(u.title, p.title),
                       slug := Or(u.slug, p.slug), shortDescription := Or(u.shortDescription, p.shortDescription),
                       department := Or(u.department, p.department), category := Or(u.category, p.category),
                       primaryImageUrl := Or(u.primaryImageUrl, p.primaryImageUrl), active := Or(u.active, p.active))
    ensures row == Merge(p, u)
    ensures PatchedAs(row, u, p) && SameUnpatched(row, p) && row.updatedAt == p.updatedAt
  {
  }

  lemma PatchedColumns(p: Product, u: ProductUpdate, e: Edit)
    requires e.op.Patch? && p.id == e.op.id
    ensures SameUnpatched(Stamped(Merge(p, u), e), p)
    ensures Stamped(Merge(p, u), e).updatedAt == e.now && PatchedAs(Stamped(Merge(p, u), e), u, p)
  {
    hide Merge;
    MergeMeans(p, u);
  }

  lemma DeletionMeans(table: Table, id: Int64, now: Time, newId: Int64)
    ensures var (table', r) := Apply(table, Edit(Delete(id), now, newId));
            && OnlyRow(table, table', id) && id !in table'
            && r == if id in table then Ok(Deleted) else Err(NotFound)
  {
  }

  // ---- Rows stay valid and unique ----

  ghost predicate Tidy(table: Table) {
    && (forall id :: id in table ==> table[id].id == id && ValidProduct(table[id]))
    && (forall id, other :: id in table && other in table && id != other ==> !SameKey(table[id], table[other]))
  }

  lemma StoreKeepsTidy(table: Table, id: Int64, p: Product, now: Time)
    requires Tidy(table) && ValidProduct(p)
    ensures Tidy(Store(table, id, p, now).0)
  {
    if !Taken(table, id, p) {
      forall other | other in table && other != id ensures !SameKey(table[other], p) {
      }
    }
  }

  lemma SaveKeepsTidy(table: Table, id: Int64, p: Product, now: Time)
    requires Tidy(table)
    ensures Tidy(Save(table, id, p, now).0)
  {
    hide Tidy, Store, ValidProduct;
    if ValidProduct(p) {
      StoreKeepsTidy(table, id, p, now);
    }
  }

  lemma ApplyKeepsTidy(table: Table, e: Edit)
    requires Tidy(table)
    ensures Tidy(Apply(table, e).0)
  {
    hide Save;
    match e.op {
      case Create(p) => SaveKeepsTidy(table, e.newId, p, e.now);
      case Patch(id, u) =>
        if id in table {
          SaveKeepsTidy(table, id, Merge(table[id], u), e.now);
        }
      case Delete(_) =>
    }
  }

  /** Every row of every reachable table passes Validate, and no two share a code or a slug. */
  lemma {:induction false} RunKeepsTidy(table: Table, edits: seq<Edit>)
    requires Tidy(table)
    ensures Tidy(After(table, edits))
  {
    if edits != [] {
      RunKeepsTidy(table, edits[..|edits| - 1]);
      ApplyKeepsTidy(After(table, edits[..|edits| - 1]), edits[|edits| - 1]);
    }
  }

  // ---- No update is lost ----

  datatype Field = ProductCode | Title | Slug | ShortDescription | Department | Category | PrimaryImageUrl | Active

  datatype Value = Text(text: string) | Flag(flag: bool)

  function Get(p: Product, f: Field): Value {
    match f
    case ProductCode => Text(p.productCode)
    case Title => Text(p.title)
    case Slug => Text(p.slug)
    case ShortDescription => Text(p.shortDescription)
    case Department => Text(p.department)
    case Category => Text(p.category)
    case PrimaryImageUrl => Text(p.primaryImageUrl)
    case Active => Flag(p.active)
  }

  function TextOf(change: Option<string>): Option<Value> {
    if change.Some? then Some(Text(change.value)) else None
  }

  /** What a PATCH asks of a field. */
  function Asked(u: ProductUpdate, f: Field): Option<Value> {
    match f
    case ProductCode => TextOf(u.productCode)
    case Title => TextOf(u.title)
    case Slug => TextOf(u.slug)
    case ShortDescription => TextOf(u.shortDescription)
    case Department => TextOf(u.department)
    case Category => TextOf(u.category)
    case PrimaryImageUrl => TextOf(u.primaryImageUrl)
    case Active => if u.active.Some? then Some(Flag(u.active.value)) else None
  }

  lemma MergeGets(p: Product, u: ProductUpdate, f: Field)
    ensures Get(Merge(p, u), f) == Or(Asked(u, f), Get(p, f))
  {
  }

  /** What edit i wrote to this field of this product: something only if it is a patch of it that was saved. */
  function Written(table: Table, edits: seq<Edit>, i: int, id: Int64, f: Field): Option<Value> {
    if 0 <= i < |edits| && edits[i].op.Patch? && edits[i].op.id == id && Answer(table, edits, i).Ok?
    then Asked(edits[i].op.update, f) else None
  }

  /** value was written last, or was there at the beginning and never written over. */
  ghost predicate LastWritten(table: Table, edits: seq<Edit>, id: Int64, f: Field, value: Value)
    requires id in table
  {
    || (value == Get(table[id], f) && forall i :: Written(table, edits, i, id, f) == None)
    || exists i :: Written(table, edits, i, id, f) == Some(value)
                   && forall j :: i < j ==> Written(table, edits, j, id, f) == None
  }

  /** An edit that neither deletes the row nor inserts its id. */
  predicate Spares(e: Edit, id: Int64) {
    e.op != Delete(id) && (e.op.Create? ==> e.newId != id)
  }

  lemma StepGets(table: Table, e: Edit, id: Int64, f: Field)
    requires id in table && Spares(e, id)
    ensures var (after, outcome) := Apply(table, e);
            && id in after
            && Get(after[id], f) == if e.op.Patch? && e.op.id == id && outcome.Ok?
                                    then Or(Asked(e.op.update, f), Get(table[id], f))
                                    else Get(table[id], f)
  {
  }

  lemma WrittenPrefix(table: Table, edits: seq<Edit>, i: int, id: Int64, f: Field)
    requires edits != [] && i != |edits| - 1
    ensures Written(table, edits, i, id, f) == Written(table, edits[..|edits| - 1], i, id, f)
  {
    if 0 <= i < |edits| {
      assert edits[..|edits| - 1][..i] == edits[..i];
    }
  }

  lemma BeyondTheRun(table: Table, edits: seq<Edit>, i: int, id: Int64, f: Field)
    requires i >= |edits|
    ensures Written(table, edits, i, id, f) == None
  {
  }

  lemma LastWrittenGrows(table: Table, edits: seq<Edit>, id: Int64, f: Field, before: Value)
    requires id in table && edits != [] && LastWritten(table, edits[..|edits| - 1], id, f, before)
    ensures LastWritten(table, edits, id, f, Or(Written(table, edits, |edits| - 1, id, f), before))
  {
    hide Written;
    var init, last := edits[..|edits| - 1], |edits| - 1;
    forall i | i != last ensures Written(table, edits, i, id, f) == Written(table, init, i, id, f) {
      WrittenPrefix(table, edits, i, id, f);
    }
    BeyondTheRun(table, init, last, id, f);
    forall i | i > last ensures Written(table, edits, i, id, f) == None {
      BeyondTheRun(table, edits, i, id, f);
    }
    if Written(table, edits, last, id, f) == None {
      if i :| Written(table, init, i, id, f) == Some(before)
              && forall j :: i < j ==> Written(table, init, j, id, f) == None
      {
        assert Written(table, edits, i, id, f) == Some(before);
      }
    }
  }

  /** In the order of their commits no patch overwrites a field it did not ask for. */
  lemma {:induction false} NoUpdateIsLost(table: Table, edits: seq<Edit>, id: Int64, f: Field)
    requires id in table && forall i :: 0 <= i < |edits| ==> Spares(edits[i], id)
    ensures id in After(table, edits)
    ensures LastWritten(table, edits, id, f, Get(After(table, edits)[id], f))
  {
    hide LastWritten, Get, Asked, Apply, Spares;
    if edits == [] {
      NothingAsked(table, id, f);
    } else {
      var init, last := edits[..|edits| - 1], edits[|edits| - 1];
      NoUpdateIsLost(table, init, id, f);
      StepGets(After(table, init), last, id, f);
      LastWrittenGrows(table, edits, id, f, Get(After(table, init)[id], f));
    }
  }

  /** What no PATCH names stays as it was, over any run that neither deletes nor recreates the row. */
  lemma {:induction false} UnpatchedColumnsStay(table: Table, edits: seq<Edit>, id: Int64)
    requires Tidy(table) && id in table && forall i :: 0 <= i < |edits| ==> Spares(edits[i], id)
    ensures id in After(table, edits) && SameUnpatched(After(table, edits)[id], table[id])
  {
    hide Tidy, Apply;
    if edits != [] {
      var init, last := edits[..|edits| - 1], edits[|edits| - 1];
      UnpatchedColumnsStay(table, init, id);
      RunKeepsTidy(table, init);
      OneEditSpares(After(table, init), last, id);
    }
  }

  lemma OneEditSpares(table: Table, e: Edit, id: Int64)
    requires Tidy(table) && id in table && Spares(e, id)
    ensures id in Apply(table, e).0 && SameUnpatched(Apply(table, e).0[id], table[id])
  {
    match e.op {
      case Create(p) => CreationMeans(table, p, e.now, e.newId);
      case Patch(own, u) => PatchMeans(table, own, u, e.now, e.newId);
      case Delete(own) => DeletionMeans(table, own, e.now, e.newId);
    }
  }

  lemma NothingAsked(table: Table, id: Int64, f: Field)
    requires id in table
    ensures LastWritten(table, [], id, f, Get(table[id], f))
  {
  }

  // ---- Patches of different fields ----

  ghost predicate Disjoint(u: ProductUpdate, v: ProductUpdate) {
    forall f :: Asked(u, f) == None || Asked(v, f) == None
  }

  lemma MergesCommute(p: Product, u: ProductUpdate, v: ProductUpdate)
    requires Disjoint(u, v)
    ensures Merge(Merge(p, u), v) == Merge(Merge(p, v), u)
    ensures forall f :: Get(Merge(Merge(p, u), v), f) == Or(Asked(u, f), Or(Asked(v, f), Get(p, f)))
  {
    var q, r := Merge(Merge(p, u), v), Merge(Merge(p, v), u);
    forall f ensures Get(q, f) == Get(r, f) == Or(Asked(u, f), Or(Asked(v, f), Get(p, f))) {
      MergeGets(p, u, f);
      MergeGets(p, v, f);
      MergeGets(Merge(p, u), v, f);
      MergeGets(Merge(p, v), u, f);
    }
    assert Get(q, ProductCode) == Get(r, ProductCode) && Get(q, Title) == Get(r, Title) && Get(q, Slug) == Get(r, Slug);
    assert Get(q, ShortDescription) == Get(r, ShortDescription) && Get(q, Department) == Get(r, Department);
    assert Get(q, Category) == Get(r, Category) && Get(q, PrimaryImageUrl) == Get(r, PrimaryImageUrl);
    assert Get(q, Active) == Get(r, Active);
  }

  /** What decides a patch of a row that is in order: only what the patch itself asks for. */
  predicate Blanks(u: ProductUpdate) {
    (u.productCode.Some? && Blank(u.productCode.value)) || (u.title.Some? && Blank(u.title.value))
    || (u.slug.Some? && Blank(u.slug.value))
  }

  predicate Collides(table: Table, id: Int64, u: ProductUpdate) {
    exists other :: other in table && other != id
                    && (u.productCode == Some(table[other].productCode) || u.slug == Some(table[other].slug))
  }

  function Stamped(p: Product, e: Edit): Product
    requires e.op.Patch?
  {
    p.(id := e.op.id, updatedAt := e.now)
  }

  lemma PatchFate(table: Table, e: Edit)
    requires Tidy(table) && e.op.Patch? && e.op.id in table
    ensures var u, id := e.op.update, e.op.id;
            var saved := Stamped(Merge(table[id], u), e);
            Apply(table, e) == if Blanks(u) then (table, Err(Invalid))
                               else if Collides(table, id, u) then (table, Err(Conflict))
                               else (table[id := saved], Ok(Saved(saved)))
  {
  }

  /** A patch that was saved leaves what decides another patch of the same row as it was. */
  lemma CollidesElsewhere(table: Table, id: Int64, p: Product, u: ProductUpdate)
    ensures Collides(table[id := p], id, u) <==> Collides(table, id, u)
  {
    var table' := table[id := p];
    assert forall other :: other != id ==> (other in table' <==> other in table);
  }

  /** The tables agree but for the updated_at of this row. */
  ghost predicate AgreeOn(table: Table, table': Table, id: Int64) {
    && table.Keys == table'.Keys
    && (forall other :: other in table && other != id ==> table'[other] == table[other])
    && (id in table ==> forall f :: Get(table'[id], f) == Get(table[id], f))
  }

  /** What becomes of one patch of a row that is in order, alone or after another patch of the row. */
  function Fate(table: Table, id: Int64, u: ProductUpdate): Option<Error> {
    if Blanks(u) then Some(Invalid) else if Collides(table, id, u) then Some(Conflict) else None
  }

  lemma PatchThenPatch(table: Table, first: Edit, second: Edit)
    requires Tidy(table) && first.op.Patch? && second.op.Patch? && first.op.id == second.op.id && first.op.id in table
    ensures var p, id, u, v := table[first.op.id], first.op.id, first.op.update, second.op.update;
            var (t1, a1) := Apply(table, first);
            var (t2, a2) := Apply(t1, second);
            && a1.Err? == Fate(table, id, u).Some? && (a1.Err? ==> Fate(table, id, u) == Some(a1.error))
            && a2.Err? == Fate(table, id, v).Some? && (a2.Err? ==> Fate(table, id, v) == Some(a2.error))
            && t2 == if a1.Ok? && a2.Ok? then table[id := Stamped(Merge(Merge(p, u), v), second)]
                     else if a1.Ok? then table[id := Stamped(Merge(p, u), first)]
                     else if a2.Ok? then table[id := Stamped(Merge(p, v), second)]
                     else table
  {
    hide Tidy, Blanks, Collides, Merge, Get;
    var p, id, u, v := table[first.op.id], first.op.id, first.op.update, second.op.update;
    var t1 := Apply(table, first).0;
    ApplyKeepsTidy(table, first);
    PatchFate(table, first);
    PatchFate(t1, second);
    hide Apply, Save;
    CollidesElsewhere(table, id, Stamped(Merge(p, u), first), v);
    StampedMerge(p, u, v, first, second);
  }

  /**
   * Two patches of different fields of one product can run in either order: each
   * gets the same answer, the resulting tables agree, and when both are saved the
   * row has both.
   */
  lemma DisjointPatchesCommute(table: Table, first: Edit, second: Edit)
    requires Tidy(table) && first.op.Patch? && second.op.Patch? && first.op.id == second.op.id
    requires Disjoint(first.op.update, second.op.update)
    ensures var id := first.op.id;
            var (t1, a1) := Apply(table, first);
            var (t2, a2) := Apply(t1, second);
            var (s2, b2) := Apply(table, second);
            var (s1, b1) := Apply(s2, first);
            && a1.Ok? == b1.Ok? && a2.Ok? == b2.Ok? && (a1.Err? ==> a1 == b1) && (a2.Err? ==> a2 == b2)
            && AgreeOn(t2, s1, id)
            && (a1.Ok? && a2.Ok? ==>
                  && id in table && id in t2
                  && (forall f :: Get(t2[id], f)
                                  == Or(Asked(first.op.update, f), Or(Asked(second.op.update, f), Get(table[id], f)))))
  {
    hide Tidy, Fate, Merge, Get, Asked, Disjoint;
    var id, u, v := first.op.id, first.op.update, second.op.update;
    if id in table {
      var p := table[id];
      PatchThenPatch(table, first, second);
      PatchThenPatch(table, second, first);
      MergesCommute(p, u, v);
      StampedMerge(p, u, v, first, second);
      StampedMerge(p, v, u, second, first);
    }
  }

  lemma StampedMerge(p: Product, u: ProductUpdate, v: ProductUpdate, first: Edit, second: Edit)
    requires first.op.Patch? && second.op.Patch? && first.op.id == second.op.id
    ensures Stamped(Merge(Stamped(Merge(p, u), first), v), second) == Stamped(Merge(Merge(p, u), v), second)
    ensures forall f :: Get(Stamped(Merge(Merge(p, u), v), second), f) == Get(Merge(Merge(p, u), v), f)
    ensures forall f :: Get(Stamped(Merge(p, u), first), f) == Get(Merge(p, u), f)
  {
  }
}
