/** Questions that apply to an asset: the join, COUNT and HAVING query and its plain meaning. */
module QuestionQuery {
  import opened Prelude
  import opened AccessGrants

  datatype QuestionType = CONFIGURATION | SETUP_AND_INSPECTION | SETUP | INSPECTION

  datatype ConditionType = REGION | MANUFACTURER | PRODUCT_CATEGORY | PRODUCT | METADATA

  datatype Question = Question(
    id: string, active: bool, parentQuestionId: Option<string>, questionType: QuestionType, clientId: Option<string>)

  datatype Condition = Condition(assetQuestionId: string, conditionType: ConditionType, value: seq<string>)

  datatype Customization = Customization(assetQuestionId: string, enabled: bool)

  datatype Database = Database(
    questions: seq<Question>, conditions: seq<Condition>, clientIds: seq<string>, customizations: seq<Customization>)

  type Metadata = Option<seq<(string, string)>>

  datatype Product = Product(id: string, manufacturerId: string, productCategoryId: string, metadata: Metadata)

  /** The state is None when the site is unknown. */
  datatype Asset = Asset(product: Option<Product>, state: Option<string>, metadata: Metadata)

  // ---- The query ----

  /** One alternative of the OR: a value the condition must contain, or several of which one must occur. */
  datatype OrClause = Contains(conditionType: ConditionType, value: string) | Overlaps(keyPairs: seq<string>)

  predicate Satisfies(c: Condition, clause: OrClause) {
    match clause
    case Contains(t, v) => c.conditionType == t && v in c.value
    case Overlaps(ps) => c.conditionType == METADATA && exists p :: p in c.value && p in ps
  }

  predicate SatisfiesAny(c: Condition, clauses: seq<OrClause>) {
    clauses != [] && (SatisfiesAny(c, clauses[..|clauses| - 1]) || Satisfies(c, clauses[|clauses| - 1]))
  }

  datatype Query = Query(joinCustomizations: bool, types: Option<seq<QuestionType>>, orClauses: seq<OrClause>)

  function Somes<T>(s: seq<T>): seq<Option<T>> { seq(|s|, i requires 0 <= i < |s| => Some(s[i])) }

  function LeftJoin<T>(matches: seq<T>): seq<Option<T>> {
    if matches == [] then [None] else Somes(matches)
  }

  function Pairs<A, B>(xs: seq<A>, ys: seq<B>): seq<(A, B)> {
    if xs == [] then [] else Pairs(xs[..|xs| - 1], ys) + WithLeft(xs[|xs| - 1], ys)
  }

  function WithLeft<A, B>(x: A, ys: seq<B>): seq<(A, B)> {
    if ys == [] then [] else WithLeft(x, ys[..|ys| - 1]) + [(x, ys[|ys| - 1])]
  }

  function ConditionsOf(db: Database, id: string): seq<Condition> {
    Filter(db.conditions, (c: Condition) => c.assetQuestionId == id)
  }

  function ClientsOf(db: Database, q: Question): seq<string> {
    Filter(db.clientIds, (c: string) => q.clientId == Some(c))
  }

  function CustomizationsOf(db: Database, id: string): seq<Customization> {
    Filter(db.customizations, (c: Customization) => c.assetQuestionId == id)
  }

  type Joined = (Question, ((Option<Condition>, Option<string>), Option<Customization>))

  /** Rows of one question; without the join every customization column is null. */
  function RowsOf(db: Database, sql: Query): Question -> seq<Joined> {
    (q: Question) =>
      Pairs([q], Pairs(Pairs(LeftJoin(ConditionsOf(db, q.id)), LeftJoin(ClientsOf(db, q))),
                       if sql.joinCustomizations then LeftJoin(CustomizationsOf(db, q.id)) else [None]))
  }

  predicate QuestionPasses(sql: Query, q: Question) {
    q.active && q.parentQuestionId.None? && (sql.types.Some? ==> q.questionType in sql.types.value)
  }

  /** A null condition makes every alternative null, which is not true. */
  predicate ConditionPasses(sql: Query, c: Option<Condition>) {
    c.Some? && SatisfiesAny(c.value, sql.orClauses)
  }

  predicate CustomizationPasses(c: Option<Customization>) { c.None? || c.value.enabled }

  function RowPasses(sql: Query, id: string): Joined -> bool {
    (row: Joined) =>
      && row.0.id == id && QuestionPasses(sql, row.0)
      && ConditionPasses(sql, row.1.0.0) && CustomizationPasses(row.1.1)
  }

  /** COUNT(*) of the group of a question. */
  function Count(db: Database, sql: Query, id: string): nat {
    Tally(FlatMap(db.questions, RowsOf(db, sql)), RowPasses(sql, id))
  }

  /** There is a group only for a question with a row left, and HAVING compares its size. */
  predicate Having(db: Database, sql: Query, id: string) {
    Count(db, sql, id) > 0 && Count(db, sql, id) == |ConditionsOf(db, id)|
  }

  function Run(db: Database, sql: Query): set<string> {
    set q | q in db.questions && Having(db, sql, q.id) :: q.id
  }

  // ---- Counting a product ----

  /** `p` asks `f` of the left side and `g` of the right side of a pair. */
  ghost predicate Splits<A(!new), B(!new)>(f: A -> bool, g: B -> bool, p: ((A, B)) -> bool) {
    forall a, b :: p((a, b)) == (f(a) && g(b))
  }

  lemma {:induction false} TallyWithLeft<A(!new), B(!new)>(
    x: A, ys: seq<B>, f: A -> bool, g: B -> bool, p: ((A, B)) -> bool)
    requires Splits(f, g, p)
    ensures Tally(WithLeft(x, ys), p) == if f(x) then Tally(ys, g) else 0
  {
    if ys != [] {
      var n := |ys| - 1;
      TallyWithLeft(x, ys[..n], f, g, p);
      TallyConcat(WithLeft(x, ys[..n]), [(x, ys[n])], p);
      assert [(x, ys[n])][..0] == [];
    }
  }

  function Times(m: nat, k: nat): nat { if m == 0 then 0 else Times(m - 1, k) + k }

  lemma {:induction false} TimesIsProduct(m: nat, k: nat)
    ensures Times(m, k) == m * k
  {
    if m > 0 {
      TimesIsProduct(m - 1, k);
    }
  }

  /** The rows of a join that satisfy a condition on each side are the product of both selections. */
  lemma {:induction false} TallyPairs<A(!new), B(!new)>(
    xs: seq<A>, ys: seq<B>, f: A -> bool, g: B -> bool, p: ((A, B)) -> bool)
    requires Splits(f, g, p)
    ensures Tally(Pairs(xs, ys), p) == Times(Tally(xs, f), Tally(ys, g))
  {
    if xs != [] {
      var n := |xs| - 1;
      TallyPairs(xs[..n], ys, f, g, p);
      TallyWithLeft(xs[n], ys, f, g, p);
      TallyConcat(Pairs(xs[..n], ys), WithLeft(xs[n], ys), p);
    }
  }

  // ---- The group of one question ----

  lemma {:induction false} OtherQuestionsAddNothing(
    qs: seq<Question>, rows: Question -> seq<Joined>, p: Joined -> bool, k: int)
    requires forall i :: 0 <= i < |qs| && i != k ==> Tally(rows(qs[i]), p) == 0
    ensures Tally(FlatMap(qs, rows), p) == if 0 <= k < |qs| then Tally(rows(qs[k]), p) else 0
  {
    if qs != [] {
      var n := |qs| - 1;
      OtherQuestionsAddNothing(qs[..n], rows, p, k);
      TallyConcat(FlatMap(qs[..n], rows), rows(qs[n]), p);
    }
  }

  lemma TallyLeftJoin<T(!new)>(s: seq<T>, f: Option<T> -> bool, g: T -> bool)
    requires forall x :: g(x) == f(Some(x))
    ensures Tally(LeftJoin(s), f) == if s == [] then (if f(None) then 1 else 0) else Tally(s, g)
  {
    if s == [] {
      assert LeftJoin(s)[..0] == [];
    } else {
      TallySomes(s, f, g);
    }
  }

  lemma {:induction false} TallySomes<T(!new)>(s: seq<T>, f: Option<T> -> bool, g: T -> bool)
    requires forall x :: g(x) == f(Some(x))
    ensures Tally(Somes(s), f) == Tally(s, g)
  {
    if s != [] {
      var n := |s| - 1;
      TallySomes(s[..n], f, g);
      assert Somes(s)[..n] == Somes(s[..n]);
    }
  }

  // ---- What the query returns ----

  /** Primary keys, and the unique question of a customization. */
  ghost predicate Keyed(db: Database) {
    && (forall i, j :: 0 <= i < j < |db.questions| ==> db.questions[i].id != db.questions[j].id)
    && (forall q :: q in db.questions ==> |ClientsOf(db, q)| <= 1)
    && (forall id :: |CustomizationsOf(db, id)| <= 1)
  }

  /** A condition matched by one of the alternatives. */
  function Matched(sql: Query): Condition -> bool { (c: Condition) => ConditionPasses(sql, Some(c)) }

  ghost predicate Disabled(db: Database, sql: Query, id: string) {
    sql.joinCustomizations && exists c :: c in db.customizations && c.assetQuestionId == id && !c.enabled
  }

  function PassingCondition(sql: Query): Option<Condition> -> bool { (c: Option<Condition>) => ConditionPasses(sql, c) }

  function AnyClient(): Option<string> -> bool { (c: Option<string>) => true }

  function PassingCustomization(): Option<Customization> -> bool {
    (c: Option<Customization>) => CustomizationPasses(c)
  }

  function JoinedCustomizations(db: Database, sql: Query, id: string): seq<Option<Customization>> {
    if sql.joinCustomizations then LeftJoin(CustomizationsOf(db, id)) else [None]
  }

  /** Joined rows of one question that pass: one for each matched condition, client row and surviving customization. */
  lemma CountOfQuestion(db: Database, sql: Query, q: Question, id: string)
    ensures Tally(RowsOf(db, sql)(q), RowPasses(sql, id))
      == if q.id == id && QuestionPasses(sql, q)
         then Times(Times(Tally(LeftJoin(ConditionsOf(db, q.id)), PassingCondition(sql)),
                          Tally(LeftJoin(ClientsOf(db, q)), AnyClient())),
                    Tally(JoinedCustomizations(db, sql, q.id), PassingCustomization()))
         else 0
  {
    var conditions, clients := LeftJoin(ConditionsOf(db, q.id)), LeftJoin(ClientsOf(db, q));
    var customizations := JoinedCustomizations(db, sql, q.id);
    var left := (r: (Option<Condition>, Option<string>)) => ConditionPasses(sql, r.0);
    var right := (r: ((Option<Condition>, Option<string>), Option<Customization>)) =>
      ConditionPasses(sql, r.0.0) && CustomizationPasses(r.1);
    var own := (x: Question) => x.id == id && QuestionPasses(sql, x);
    TallyPairs(conditions, clients, PassingCondition(sql), AnyClient(), left);
    TallyPairs(Pairs(conditions, clients), customizations, left, PassingCustomization(), right);
    TallyPairs([q], Pairs(Pairs(conditions, clients), customizations), own, right, RowPasses(sql, id));
    assert [q][..0] == [];
    TimesIsProduct(Tally([q], own), Tally(Pairs(Pairs(conditions, clients), customizations), right));
  }

  lemma CustomizationRows(db: Database, sql: Query, id: string)
    requires Keyed(db)
    ensures Tally(JoinedCustomizations(db, sql, id), PassingCustomization()) == if Disabled(db, sql, id) then 0 else 1
  {
    var mine := CustomizationsOf(db, id);
    var rows := JoinedCustomizations(db, sql, id);
    assert |rows| == 1 && rows[..0] == [];
    if sql.joinCustomizations && mine != [] {
      assert mine[0] in mine;
      assert forall c :: c in mine ==> c == mine[0];
    }
  }

  lemma ClientRows(db: Database, q: Question)
    requires Keyed(db) && q in db.questions
    ensures Tally(LeftJoin(ClientsOf(db, q)), AnyClient()) == 1
  {
  }

  lemma PassingRows(db: Database, sql: Query, q: Question)
    requires Keyed(db) && q in db.questions
    ensures Tally(RowsOf(db, sql)(q), RowPasses(sql, q.id))
      == if QuestionPasses(sql, q) && !Disabled(db, sql, q.id) then Tally(ConditionsOf(db, q.id), Matched(sql)) else 0
  {
    CountOfQuestion(db, sql, q, q.id);
    ClientRows(db, q);
    CustomizationRows(db, sql, q.id);
    var matched := Tally(LeftJoin(ConditionsOf(db, q.id)), PassingCondition(sql));
    TallyLeftJoin(ConditionsOf(db, q.id), PassingCondition(sql), Matched(sql));
    TimesIsProduct(matched, 1);
    TimesIsProduct(matched, 0);
  }

  /** The joined COUNT is the number of matched conditions, or zero for a question the other clauses exclude. */
  lemma CountIsMatchedConditions(db: Database, sql: Query, k: nat)
    requires Keyed(db) && k < |db.questions|
    ensures var q := db.questions[k];
      Count(db, sql, q.id) == if QuestionPasses(sql, q) && !Disabled(db, sql, q.id)
                              then Tally(ConditionsOf(db, q.id), Matched(sql)) else 0
  {
    var q, rows := db.questions[k], RowsOf(db, sql);
    forall i | 0 <= i < |db.questions| && i != k ensures Tally(rows(db.questions[i]), RowPasses(sql, q.id)) == 0 {
      CountOfQuestion(db, sql, db.questions[i], q.id);
    }
    OtherQuestionsAddNothing(db.questions, rows, RowPasses(sql, q.id), k);
    PassingRows(db, sql, q);
  }

  /** A question comes back exactly when nothing excludes it and all its conditions, at least one, are matched. */
  lemma HavingIff(db: Database, sql: Query, k: nat)
    requires Keyed(db) && k < |db.questions|
    ensures var q := db.questions[k];
      var conditions := ConditionsOf(db, q.id);
      Having(db, sql, q.id) <==>
        && QuestionPasses(sql, q) && !Disabled(db, sql, q.id)
        && Tally(conditions, Matched(sql)) == |conditions| > 0
  {
    CountIsMatchedConditions(db, sql, k);
  }

  // ---- The plain meaning ----

  function KeyPairs(metadata: Metadata): seq<string> {
    if metadata.None? then []
    else seq(|metadata.value|, i requires 0 <= i < |metadata.value| => metadata.value[i].0 + ":" + metadata.value[i].1)
  }

  /** Pairs of the asset and of its product. */
  function AllKeyPairs(asset: Asset): seq<string> {
    KeyPairs(asset.metadata) + KeyPairs(if asset.product.Some? then asset.product.value.metadata else None)
  }

  /** A condition holds of an asset; `normalize` gives the state's usual abbreviation. */
  predicate Holds(asset: Asset, normalize: string -> string, c: Condition) {
    match c.conditionType
    case PRODUCT_CATEGORY => asset.product.Some? && asset.product.value.productCategoryId in c.value
    case MANUFACTURER => asset.product.Some? && asset.product.value.manufacturerId in c.value
    case PRODUCT => asset.product.Some? && asset.product.value.id in c.value
    case REGION => asset.state.Some? && asset.state.value != "" && normalize(asset.state.value) in c.value
    case METADATA => exists p :: p in c.value && p in AllKeyPairs(asset)
  }

  /** A pair of the given metadata is among the values of the condition, written key:value. */
  predicate Mentions(c: Condition, metadata: Metadata) {
    metadata.Some? &&
    exists i :: 0 <= i < |metadata.value| && metadata.value[i].0 + ":" + metadata.value[i].1 in c.value
  }

  /** A metadata condition holds of an asset exactly if it mentions a pair of the asset's or of its product's. */
  lemma MetadataHoldsIff(asset: Asset, normalize: string -> string, c: Condition)
    requires c.conditionType == METADATA
    ensures Holds(asset, normalize, c) <==>
      Mentions(c, asset.metadata) || (asset.product.Some? && Mentions(c, asset.product.value.metadata))
  {
    MentionsIff(c, asset.metadata);
    var productMetadata := if asset.product.Some? then asset.product.value.metadata else None;
    MentionsIff(c, productMetadata);
    if p :| p in c.value && p in AllKeyPairs(asset) {
      assert p in KeyPairs(asset.metadata) || p in KeyPairs(productMetadata);
    }
    if p :| p in c.value && (p in KeyPairs(asset.metadata) || p in KeyPairs(productMetadata)) {
      assert p in AllKeyPairs(asset);
    }
  }

  lemma MentionsIff(c: Condition, metadata: Metadata)
    ensures Mentions(c, metadata) <==> exists p :: p in c.value && p in KeyPairs(metadata)
  {
    if Mentions(c, metadata) {
      var i :| 0 <= i < |metadata.value| && metadata.value[i].0 + ":" + metadata.value[i].1 in c.value;
      assert KeyPairs(metadata)[i] in KeyPairs(metadata);
    }
  }

  predicate TypeCompatible(asked: Option<QuestionType>, t: QuestionType) {
    || asked == None || asked == Some(SETUP_AND_INSPECTION) || asked == Some(t)
    || (t == SETUP_AND_INSPECTION && asked != Some(CONFIGURATION))
  }

  /** The question has conditions and all of them hold. */
  ghost predicate AllHold(db: Database, id: string, asset: Asset, normalize: string -> string) {
    && (exists c :: c in db.conditions && c.assetQuestionId == id)
    && forall c :: c in db.conditions && c.assetQuestionId == id ==> Holds(asset, normalize, c)
  }

  /** The question applies to the asset. */
  ghost predicate Applies(
    db: Database, q: Question, asset: Asset, normalize: string -> string, asked: Option<QuestionType>, clientUser: bool)
  {
    && q.active && q.parentQuestionId.None? && TypeCompatible(asked, q.questionType)
    && (clientUser ==> forall c :: c in db.customizations && c.assetQuestionId == q.id ==> c.enabled)
    && AllHold(db, q.id, asset, normalize)
  }

  /** The alternatives together say that a condition holds. */
  ghost predicate SaysHolds(clauses: seq<OrClause>, asset: Asset, normalize: string -> string) {
    forall c :: Holds(asset, normalize, c) <==> SatisfiesAny(c, clauses)
  }

  /** The alternatives cover the given types of conditions and no others. */
  ghost predicate Covers(clauses: seq<OrClause>, types: set<ConditionType>, asset: Asset, normalize: string -> string) {
    forall c :: SatisfiesAny(c, clauses) <==> c.conditionType in types && Holds(asset, normalize, c)
  }

  /** One more alternative covers one more type; a type of which nothing holds needs none. */
  lemma CoversMore(
    clauses: seq<OrClause>, types: set<ConditionType>, more: seq<OrClause>, t: ConditionType,
    asset: Asset, normalize: string -> string)
    requires Covers(clauses, types, asset, normalize) && |more| <= 1
    requires forall c :: (|more| == 1 && Satisfies(c, more[0])) <==> c.conditionType == t && Holds(asset, normalize, c)
    ensures Covers(clauses + more, types + {t}, asset, normalize)
  {
    if more == [] {
      assert clauses + more == clauses;
    } else {
      assert (clauses + more)[..|clauses|] == clauses;
    }
  }

  method BuildOrClauses(asset: Asset, normalize: string -> string) returns (clauses: seq<OrClause>)
    ensures SaysHolds(clauses, asset, normalize)
  {
    var forCategory, forManufacturer, forProduct, forRegion, forMetadata := [], [], [], [], [];
    if asset.product.Some? {
      var product := asset.product.value;
      forCategory := [Contains(PRODUCT_CATEGORY, product.productCategoryId)];
      forManufacturer := [Contains(MANUFACTURER, product.manufacturerId)];
      forProduct := [Contains(PRODUCT, product.id)];
    }
    if asset.state.Some? && asset.state.value != "" {
      forRegion := [Contains(REGION, normalize(asset.state.value))];
    }
    var uniqueKeyPairs := AddAll([], AllKeyPairs(asset));
    if |uniqueKeyPairs| > 0 {
      forMetadata := [Overlaps(uniqueKeyPairs)];
    }
    clauses := [];
    CoversMore(clauses, {}, forCategory, PRODUCT_CATEGORY, asset, normalize);
    clauses := clauses + forCategory;
    CoversMore(clauses, {PRODUCT_CATEGORY}, forManufacturer, MANUFACTURER, asset, normalize);
    clauses := clauses + forManufacturer;
    CoversMore(clauses, {PRODUCT_CATEGORY} + {MANUFACTURER}, forProduct, PRODUCT, asset, normalize);
    clauses := clauses + forProduct;
    CoversMore(clauses, {PRODUCT_CATEGORY} + {MANUFACTURER} + {PRODUCT}, forRegion, REGION, asset, normalize);
    clauses := clauses + forRegion;
    ghost var types := {PRODUCT_CATEGORY} + {MANUFACTURER} + {PRODUCT} + {REGION};
    CoversMore(clauses, types, forMetadata, METADATA, asset, normalize);
    clauses := clauses + forMetadata;
  }

  function TypesAsked(asked: Option<QuestionType>): (types: Option<seq<QuestionType>>)
    ensures forall t :: (types.Some? ==> t in types.value) <==> TypeCompatible(asked, t)
  {
    if asked.None? || asked.value == SETUP_AND_INSPECTION then None
    else if asked.value == SETUP then Some([SETUP, SETUP_AND_INSPECTION])
    else if asked.value == INSPECTION then Some([INSPECTION, SETUP_AND_INSPECTION])
    else Some([asked.value])
  }

  lemma AllMatchedIffAllHold(db: Database, id: string, sql: Query, asset: Asset, normalize: string -> string)
    requires SaysHolds(sql.orClauses, asset, normalize)
    ensures var mine := ConditionsOf(db, id);
      Tally(mine, Matched(sql)) == |mine| > 0 <==> AllHold(db, id, asset, normalize)
  {
    var mine := ConditionsOf(db, id);
    TallyAllIff(mine, Matched(sql));
    if |mine| > 0 {
      assert mine[0] in mine;
    }
    forall c | c in db.conditions && c.assetQuestionId == id ensures exists i :: 0 <= i < |mine| && mine[i] == c {
      assert c in mine;
    }
    forall i | 0 <= i < |mine| ensures mine[i] in db.conditions && mine[i].assetQuestionId == id {
      assert mine[i] in mine;
    }
  }

  lemma RunIffApplies(
    db: Database, q: Question, asset: Asset, normalize: string -> string, asked: Option<QuestionType>, clientUser: bool,
    orClauses: seq<OrClause>)
    requires Keyed(db) && q in db.questions && SaysHolds(orClauses, asset, normalize)
    ensures q.id in Run(db, Query(clientUser, TypesAsked(asked), orClauses))
      <==> Applies(db, q, asset, normalize, asked, clientUser)
  {
    var sql := Query(clientUser, TypesAsked(asked), orClauses);
    var k :| 0 <= k < |db.questions| && db.questions[k] == q;
    HavingIff(db, sql, k);
    assert q.id in Run(db, sql) <==> Having(db, sql, q.id);
    AllMatchedIffAllHold(db, q.id, sql, asset, normalize);
  }

  /** The ids found are those of the questions that apply. */
  method FindQuestionIdsByAsset(
    db: Database, asset: Asset, normalize: string -> string, asked: Option<QuestionType>, clientUser: bool)
    returns (ids: set<string>)
    requires Keyed(db)
    ensures forall q :: q in db.questions ==> (q.id in ids <==> Applies(db, q, asset, normalize, asked, clientUser))
    ensures forall id :: id in ids ==> exists q :: q in db.questions && q.id == id
  {
    var orClauses := BuildOrClauses(asset, normalize);
    if |orClauses| > 0 {
      ids := Run(db, Query(clientUser, TypesAsked(asked), orClauses));
    } else {
      ids := {};
    }
    forall q | q in db.questions ensures q.id in ids <==> Applies(db, q, asset, normalize, asked, clientUser) {
      if |orClauses| > 0 {
        RunIffApplies(db, q, asset, normalize, asked, clientUser, orClauses);
      }
    }
  }
}
