/**
 * The split of the legacy merge-request mixin: src/sync/mixin-migration.ts, read through
 * the unified view of src/sync/mr-mixin.ts.
 *
 * One document is migrated by up to three writes, each of which may be the last one before
 * the process dies; a re-run reads the document again and starts over.
 */
module MixinMigration {

  datatype CoreField =
    | SourceBranch | TargetBranch | Draft | MergedAt | MergeStatus | WebUrl | GitlabIid | GitlabProjectId
  {
    function Index(): (i: nat)
      ensures i < 8
    {
      match this
      case SourceBranch => 0 case TargetBranch => 1 case Draft => 2 case MergedAt => 3
      case MergeStatus => 4 case WebUrl => 5 case GitlabIid => 6 case GitlabProjectId => 7
    }
  }

  datatype ReviewField =
    | Reviewers | ApprovedBy | ApprovalsRequired | ApprovalStatus | DiffWebUrl | ChangedFiles
    | ApprovalRules | Iteration | ParentEpicIid
  {
    function Index(): (i: nat)
      ensures i < 9
    {
      match this
      case Reviewers => 0 case ApprovedBy => 1 case ApprovalsRequired => 2 case ApprovalStatus => 3
      case DiffWebUrl => 4 case ChangedFiles => 5 case ApprovalRules => 6 case Iteration => 7
      case ParentEpicIid => 8
    }
  }

  /** An attribute key; `Other` is any key outside the two key lists, such as pipelineStatus. */
  datatype Field = Core(core: CoreField) | Review(review: ReviewField) | Marker | Other(name: string)

  const CORE_FIELD_KEYS: seq<Field> :=
    [Core(SourceBranch), Core(TargetBranch), Core(Draft), Core(MergedAt),
     Core(MergeStatus), Core(WebUrl), Core(GitlabIid), Core(GitlabProjectId)]

  const REVIEW_FIELD_KEYS: seq<Field> :=
    [Review(Reviewers), Review(ApprovedBy), Review(ApprovalsRequired), Review(ApprovalStatus),
     Review(DiffWebUrl), Review(ChangedFiles), Review(ApprovalRules), Review(Iteration), Review(ParentEpicIid)]

  const PIPELINE_STATUS: Field := Other("pipelineStatus")

  /** The marker's value, or any other value. */
  datatype Value = GitLab | Data(json: string)

  /** The attributes of one mixin; a key whose value is undefined is not in the map. */
  type Attrs = map<Field, Value>

  datatype Mixin = Absent | Present(attrs: Attrs)

  datatype Doc = Doc(legacy: Mixin, core: Mixin, review: Mixin)

  lemma CoreKeysComplete(f: Field)
    ensures f in CORE_FIELD_KEYS <==> f.Core?
  {
    var k := CORE_FIELD_KEYS;
    assert k[0].Core? && k[1].Core? && k[2].Core? && k[3].Core?;
    assert k[4].Core? && k[5].Core? && k[6].Core? && k[7].Core?;
    assert forall i :: 0 <= i < |k| ==> k[i].Core?;
    if f.Core? { assert k[f.core.Index()] == f; }
  }

  lemma ReviewKeysComplete(f: Field)
    ensures f in REVIEW_FIELD_KEYS <==> f.Review?
  {
    var k := REVIEW_FIELD_KEYS;
    assert k[0].Review? && k[1].Review? && k[2].Review? && k[3].Review? && k[4].Review?;
    assert k[5].Review? && k[6].Review? && k[7].Review? && k[8].Review?;
    assert forall i :: 0 <= i < |k| ==> k[i].Review?;
    if f.Review? { assert k[f.review.Index()] == f; }
  }

  function Of(m: Mixin): Attrs {
    if m.Present? then m.attrs else map[]
  }

  predicate NonEmpty(m: Mixin) {
    m.Present? && m.attrs != map[]
  }

  /** `readMRMixinAttributes`: the new mixins win as soon as either is there. */
  function View(d: Doc): Attrs {
    if d.core.Present? || d.review.Present? then Of(d.core) + Of(d.review) else Of(d.legacy)
  }

  // ---------------------------------------------------------------------------
  // The writes of one document
  // ---------------------------------------------------------------------------

  datatype Write = WriteCore(attrs: Attrs) | WriteReview(attrs: Attrs) | Strip(keys: set<Field>)

  function Picked(src: Attrs, keys: seq<Field>): Attrs {
    map f | f in src && f in keys :: src[f]
  }

  function Stamped(attrs: Attrs): Attrs {
    attrs[Marker := GitLab]
  }

  ghost predicate Complete(d: Doc) {
    forall c: CoreField :: Core(c) in Of(d.legacy)
  }

  /** There is a legacy mixin, and the core mixin is there or can be built from it. */
  ghost predicate Splittable(d: Doc) {
    NonEmpty(d.legacy) && (NonEmpty(d.core) || Complete(d))
  }

  function CoreWrites(d: Doc): seq<Write> {
    if NonEmpty(d.core) then [] else [WriteCore(Stamped(Picked(Of(d.legacy), CORE_FIELD_KEYS)))]
  }

  function ReviewWrites(d: Doc): seq<Write> {
    var payload := Picked(Of(d.legacy), REVIEW_FIELD_KEYS);
    if NonEmpty(d.review) || payload == map[] then [] else [WriteReview(Stamped(payload))]
  }

  ghost function Plan(d: Doc): seq<Write> {
    if !Splittable(d) then [] else CoreWrites(d) + ReviewWrites(d) + [Strip(Of(d.legacy).Keys)]
  }

  function Apply(d: Doc, w: Write): Doc {
    match w
    case WriteCore(attrs) => d.(core := Present(Of(d.core) + attrs))
    case WriteReview(attrs) => d.(review := Present(Of(d.review) + attrs))
    case Strip(keys) => d.(legacy := Present(Of(d.legacy) - keys))
  }

  function ApplyAll(d: Doc, ws: seq<Write>): Doc {
    if ws == [] then d else Apply(ApplyAll(d, ws[..|ws| - 1]), ws[|ws| - 1])
  }

  ghost function Migrate(d: Doc): Doc {
    ApplyAll(d, Plan(d))
  }

  /** The document after the first k writes of a run that then stopped. */
  ghost function Interrupt(d: Doc, k: nat): Doc {
    ApplyAll(d, if k < |Plan(d)| then Plan(d)[..k] else Plan(d))
  }

  /** Any number of runs, each stopped after some of its writes. */
  ghost function Interrupted(d: Doc, stops: seq<nat>): Doc
    decreases |stops|
  {
    if stops == [] then d else Interrupted(Interrupt(d, stops[0]), stops[1..])
  }

  // ---------------------------------------------------------------------------
  // Closed forms
  // ---------------------------------------------------------------------------

  function NewCore(d: Doc): Mixin {
    if NonEmpty(d.core) then d.core else Present(Stamped(Picked(Of(d.legacy), CORE_FIELD_KEYS)))
  }

  function NewReview(d: Doc): Mixin {
    var payload := Picked(Of(d.legacy), REVIEW_FIELD_KEYS);
    if NonEmpty(d.review) || payload == map[] then d.review else Present(Stamped(payload))
  }

  lemma EmptyMerge(m: Mixin, attrs: Attrs)
    requires !NonEmpty(m)
    ensures Of(m) + attrs == attrs
  {
  }

  lemma StripAll(d: Doc)
    ensures Of(d.legacy) - Of(d.legacy).Keys == map[]
  {
  }

  lemma ApplyTwo(d: Doc, v: Write, w: Write)
    ensures ApplyAll(d, [v]) == Apply(d, v)
    ensures ApplyAll(d, [v, w]) == Apply(Apply(d, v), w)
  {
    assert [v][..0] == [] && [v, w][..1] == [v];
  }

  lemma CoreWritten(d: Doc)
    ensures ApplyAll(d, CoreWrites(d)) == d.(core := NewCore(d))
  {
    hide Picked;
    if !NonEmpty(d.core) {
      EmptyMerge(d.core, NewCore(d).attrs);
      ApplyTwo(d, CoreWrites(d)[0], CoreWrites(d)[0]);
    }
  }

  lemma ReviewWritten(d: Doc, done: seq<Write>)
    requires ApplyAll(d, done).review == d.review
    ensures ApplyAll(d, done + ReviewWrites(d)) == ApplyAll(d, done).(review := NewReview(d))
  {
    hide Picked;
    if ReviewWrites(d) != [] {
      EmptyMerge(d.review, Stamped(Picked(Of(d.legacy), REVIEW_FIELD_KEYS)));
      assert (done + ReviewWrites(d))[..|done|] == done;
    } else {
      assert done + [] == done;
    }
  }

  lemma BeforeStrip(d: Doc)
    requires Splittable(d)
    ensures ApplyAll(d, CoreWrites(d)) == d.(core := NewCore(d))
    ensures ApplyAll(d, CoreWrites(d) + ReviewWrites(d)) == d.(core := NewCore(d), review := NewReview(d))
  {
    hide ApplyAll, CoreWrites, ReviewWrites, NewCore, NewReview;
    CoreWritten(d);
    ReviewWritten(d, CoreWrites(d));
  }

  lemma MigrateIs(d: Doc)
    ensures Migrate(d) == if Splittable(d) then Doc(Present(map[]), NewCore(d), NewReview(d)) else d
  {
    if Splittable(d) {
      BeforeStrip(d);
      StripAll(d);
      var ws := CoreWrites(d) + ReviewWrites(d);
      assert Plan(d)[..|ws|] == ws;
    }
  }

  /** A stopped run leaves one of four documents. */
  lemma InterruptIs(d: Doc, k: nat)
    ensures var m := Interrupt(d, k);
      m == d || m == d.(core := NewCore(d)) || m == d.(core := NewCore(d), review := NewReview(d)) || m == Migrate(d)
    ensures Interrupt(d, k) != d ==> Splittable(d)
  {
    if Splittable(d) && k < |Plan(d)| {
      BeforeStrip(d);
      var c, r := CoreWrites(d), ReviewWrites(d);
      if k == 0 {
      } else if k == |c| + |r| {
        assert Plan(d)[..k] == c + r;
      } else {
        assert k == |c| == 1;
        assert Plan(d)[..k] == c;
      }
    }
  }

  // ---------------------------------------------------------------------------
  // What the split keeps
  // ---------------------------------------------------------------------------

  lemma PickedKeys(src: Attrs, f: Field)
    ensures f in Picked(src, CORE_FIELD_KEYS) <==> f in src && f.Core?
    ensures f in Picked(src, REVIEW_FIELD_KEYS) <==> f in src && f.Review?
  {
    CoreKeysComplete(f);
    ReviewKeysComplete(f);
  }

  /**
   * A review attribute that sits in the core mixin, which the declared mixin shapes rule out,
   * is overridden by the review mixin built from the legacy one.
   */
  predicate Shadowed(d: Doc, f: Field) {
    && f.Review? && NonEmpty(d.core) && !NonEmpty(d.review)
    && f in d.core.attrs && f in Of(d.legacy) && Of(d.legacy)[f] != d.core.attrs[f]
  }

  /** None of the seventeen fields leaves the view, and none changes unless shadowed. */
  lemma FieldsKept(d: Doc, f: Field)
    requires f.Core? || f.Review?
    requires f in View(d)
    ensures f in View(Migrate(d))
    ensures View(Migrate(d))[f] == View(d)[f] <==> !Shadowed(d, f)
  {
    MigrateIs(d);
    hide Plan, ApplyAll, Migrate;
    PickedKeys(Of(d.legacy), f);
  }

  /** What the split drops from the view: the unlisted attributes of a document read through the legacy mixin. */
  lemma DroppedExactly(d: Doc, f: Field)
    ensures f in View(d) && f !in View(Migrate(d)) <==>
              d.core == Absent && d.review == Absent && Complete(d) && f.Other? && f in Of(d.legacy)
  {
    MigrateIs(d);
    PickedKeys(Of(d.legacy), f);
    if Complete(d) { assert Core(SourceBranch) in Of(d.legacy); }
  }

  /** The attribute the pipeline manager keeps on the legacy mixin is gone from every mixin of a split document. */
  lemma PipelineStatusLost(d: Doc)
    requires Splittable(d) && PIPELINE_STATUS in Of(d.legacy)
    requires PIPELINE_STATUS !in Of(d.core) && PIPELINE_STATUS !in Of(d.review)
    ensures d.core == Absent && d.review == Absent ==> PIPELINE_STATUS in View(d)
    ensures var m := Migrate(d);
      PIPELINE_STATUS !in Of(m.legacy) && PIPELINE_STATUS !in Of(m.core) && PIPELINE_STATUS !in Of(m.review)
  {
    MigrateIs(d);
    hide Plan, ApplyAll, Migrate;
    PickedKeys(Of(d.legacy), PIPELINE_STATUS);
  }

  /** A mixin with at least one attribute. */
  ghost predicate Holds(m: Mixin) {
    exists f :: m.Present? && f in m.attrs
  }

  /** The split of one document, attribute by attribute: which are there afterwards, and with which value. */
  lemma MigratedExactly(d: Doc)
    ensures var m := Migrate(d);
      if !Holds(d.legacy) || (!Holds(d.core) && exists c: CoreField :: Core(c) !in Of(d.legacy)) then m == d
      else
        && m.legacy == Present(map[])
        && (if Holds(d.core) then m.core == d.core
            else m.core.Present? && forall f ::
              && (f in m.core.attrs <==> f.Core? || f == Marker)
              && (f.Core? ==> m.core.attrs[f] == Of(d.legacy)[f])
              && (f == Marker ==> m.core.attrs[f] == GitLab))
        && (if Holds(d.review) || (forall r: ReviewField :: Review(r) !in Of(d.legacy)) then m.review == d.review
            else m.review.Present? && forall f ::
              && (f in m.review.attrs <==> (f.Review? && f in Of(d.legacy)) || f == Marker)
              && (f in m.review.attrs && f.Review? ==> m.review.attrs[f] == Of(d.legacy)[f])
              && (f == Marker ==> m.review.attrs[f] == GitLab))
  {
    MigrateIs(d);
    hide Plan, ApplyAll, Migrate, NewCore, NewReview, Holds;
    HoldsExactly(d.legacy);
    HoldsExactly(d.core);
    if Splittable(d) {
      NewCoreExactly(d);
      NewReviewExactly(d);
    }
  }

  lemma NewCoreExactly(d: Doc)
    requires Splittable(d)
    ensures if Holds(d.core) then NewCore(d) == d.core
      else NewCore(d).Present? && forall f ::
        && (f in NewCore(d).attrs <==> f.Core? || f == Marker)
        && (f.Core? ==> NewCore(d).attrs[f] == Of(d.legacy)[f])
        && (f == Marker ==> NewCore(d).attrs[f] == GitLab)
  {
    hide Picked, Holds;
    HoldsExactly(d.core);
    if !Holds(d.core) {
      forall f ensures f in Picked(Of(d.legacy), CORE_FIELD_KEYS) <==> f.Core? {
        PickedKeys(Of(d.legacy), f);
        assert f.Core? ==> f == Core(f.core);
      }
      forall f | f in Picked(Of(d.legacy), CORE_FIELD_KEYS)
        ensures Picked(Of(d.legacy), CORE_FIELD_KEYS)[f] == Of(d.legacy)[f]
      {
        PickedValue(Of(d.legacy), CORE_FIELD_KEYS, f);
      }
    }
  }

  lemma NewReviewExactly(d: Doc)
    ensures if Holds(d.review) || (forall r: ReviewField :: Review(r) !in Of(d.legacy)) then NewReview(d) == d.review
      else NewReview(d).Present? && forall f ::
        && (f in NewReview(d).attrs <==> (f.Review? && f in Of(d.legacy)) || f == Marker)
        && (f in NewReview(d).attrs && f.Review? ==> NewReview(d).attrs[f] == Of(d.legacy)[f])
        && (f == Marker ==> NewReview(d).attrs[f] == GitLab)
  {
    hide Picked, Holds;
    HoldsExactly(d.review);
    var payload := Picked(Of(d.legacy), REVIEW_FIELD_KEYS);
    forall f
      ensures f in payload <==> f in Of(d.legacy) && f.Review?
      ensures f in payload ==> payload[f] == Of(d.legacy)[f]
    {
      PickedKeys(Of(d.legacy), f);
      PickedValue(Of(d.legacy), REVIEW_FIELD_KEYS, f);
    }
    if f :| f in payload { assert f == Review(f.review); }
  }

  lemma HoldsExactly(m: Mixin)
    ensures Holds(m) <==> NonEmpty(m)
  {
    if NonEmpty(m) { var f :| f in m.attrs; }
  }

  lemma PickedValue(src: Attrs, keys: seq<Field>, f: Field)
    ensures f in Picked(src, keys) ==> f in src && Picked(src, keys)[f] == src[f]
  {
  }

  /** Which documents count as stripped, and which parts of them as written. */
  lemma AffectsExactly(d: Doc)
    ensures Affects(d, Whole) <==> Holds(d.legacy) && (Holds(d.core) || forall c: CoreField :: Core(c) in Of(d.legacy))
    ensures Affects(d, CorePart) <==> Affects(d, Whole) && !Holds(d.core)
    ensures Affects(d, ReviewPart) <==>
      Affects(d, Whole) && !Holds(d.review) && exists r: ReviewField :: Review(r) in Of(d.legacy)
  {
    hide Picked;
    HoldsExactly(d.legacy);
    HoldsExactly(d.core);
    HoldsExactly(d.review);
    var payload := Picked(Of(d.legacy), REVIEW_FIELD_KEYS);
    if f :| f in payload {
      PickedKeys(Of(d.legacy), f);
      assert f == Review(f.review);
    }
    if r: ReviewField :| Review(r) in Of(d.legacy) { PickedKeys(Of(d.legacy), Review(r)); }
  }

  lemma InterruptSteps(d: Doc, k: nat)
    requires Splittable(d) && !NonEmpty(d.core) && ReviewWrites(d) != []
    ensures Interrupt(d, k) ==
      if k == 0 then d
      else if k == 1 then d.(core := NewCore(d))
      else if k == 2 then d.(core := NewCore(d), review := NewReview(d))
      else Migrate(d)
  {
    BeforeStrip(d);
    if k == 1 { assert Plan(d)[..1] == CoreWrites(d); }
    if k == 2 { assert Plan(d)[..2] == CoreWrites(d) + ReviewWrites(d); }
    if k == 3 { assert Plan(d)[..3] == Plan(d); }
  }

  lemma NewMixinsHold(d: Doc, f: Field)
    ensures f in Of(d.core) ==> f in Of(NewCore(d))
    ensures f in Of(d.review) ==> f in Of(NewReview(d))
    ensures !NonEmpty(d.core) ==> (f in Of(NewCore(d)) <==> f == Marker || (f.Core? && f in Of(d.legacy)))
    ensures !NonEmpty(d.review) && f.Review? && f in Of(d.legacy) ==> f in Of(NewReview(d)) && ReviewWrites(d) != []
  {
    PickedKeys(Of(d.legacy), f);
    if f.Review? && f in Of(d.legacy) { assert f in Picked(Of(d.legacy), REVIEW_FIELD_KEYS); }
  }

  lemma HiddenFromLegacyView(d: Doc, k: nat, f: Field)
    requires d.core == Absent && d.review == Absent && Splittable(d)
    requires (f.Core? || f.Review?) && f in Of(d.legacy)
    ensures f !in View(Interrupt(d, k)) <==> f.Review? && k == 1
  {
    NewMixinsHold(d, f);
    MigrateIs(d);
    if f.Review? { InterruptSteps(d, k); } else { InterruptIs(d, k); }
    hide Plan, ApplyAll, NewCore, NewReview, Migrate, Interrupt;
  }

  /** While a run is under way one window hides fields: between the core write and the review write. */
  lemma HiddenMeanwhileExactly(d: Doc, k: nat, f: Field)
    requires f.Core? || f.Review?
    requires f in View(d)
    ensures f !in View(Interrupt(d, k)) <==>
              d.core == Absent && d.review == Absent && Complete(d) && f.Review? && k == 1
  {
    hide Plan, ApplyAll, NewCore, NewReview, Migrate, Interrupt;
    InterruptIs(d, k);
    if d.core == Absent && d.review == Absent && Splittable(d) {
      HiddenFromLegacyView(d, k, f);
    } else {
      NewMixinsHold(d, f);
      MigrateIs(d);
    }
  }

  /** A second run writes nothing. */
  lemma Idempotent(d: Doc)
    ensures Migrate(Migrate(d)) == Migrate(d)
    ensures Splittable(d) ==> Plan(Migrate(d)) == []
  {
    MigrateIs(d);
  }

  lemma ResumeOnce(d: Doc, k: nat)
    ensures Migrate(Interrupt(d, k)) == Migrate(d)
  {
    InterruptIs(d, k);
    MigrateIs(d);
    var m := Interrupt(d, k);
    if m != d && m.legacy == d.legacy {
      MigrateIs(m);
    } else if m == Migrate(d) {
      Idempotent(d);
    }
  }

  /** Stopped any number of times after any number of writes, the split ends where an unbroken run ends. */
  lemma {:induction false} Converges(d: Doc, stops: seq<nat>)
    ensures Migrate(Interrupted(d, stops)) == Migrate(d)
    decreases |stops|
  {
    if stops != [] {
      ResumeOnce(d, stops[0]);
      Converges(Interrupt(d, stops[0]), stops[1..]);
    }
  }

  // ---------------------------------------------------------------------------
  // The whole store
  // ---------------------------------------------------------------------------

  type Ref = string

  datatype IdMapRow = IdMapRow(workspace: string, kind: string, gitlabId: string, hulyClass: string, hulyRef: Ref)

  const ISSUE_CLASS := "tracker:class:Issue"

  predicate Selected(row: IdMapRow, workspace: string, prefix: string) {
    row.workspace == workspace && row.kind == "merge_request" && prefix <= row.gitlabId
  }

  function Select(rows: seq<IdMapRow>, workspace: string, prefix: string): seq<IdMapRow> {
    if rows == [] then []
    else
      var before := Select(rows[..|rows| - 1], workspace, prefix);
      var last := rows[|rows| - 1];
      if Selected(last, workspace, prefix) then before + [last] else before
  }

  /** A merge request of the binding: its workspace, and its project in front of the id. */
  ghost predicate OfBinding(row: IdMapRow, workspace: string, prefix: string) {
    row.workspace == workspace && row.kind == "merge_request" && prefix <= row.gitlabId
  }

  /** Some merge request of the binding is kept in this issue. */
  ghost predicate IsTarget(ref: Ref, idmap: seq<IdMapRow>, workspace: string, prefix: string) {
    exists row :: row in idmap && OfBinding(row, workspace, prefix)
      && row.hulyClass == "tracker:class:Issue" && row.hulyRef == ref
  }

  lemma {:induction false} SelectExactly(idmap: seq<IdMapRow>, workspace: string, prefix: string)
    ensures forall row :: row in Select(idmap, workspace, prefix) <==> row in idmap && OfBinding(row, workspace, prefix)
    ensures |Select(idmap, workspace, prefix)| == |set i | 0 <= i < |idmap| && OfBinding(idmap[i], workspace, prefix)|
  {
    var at := set i | 0 <= i < |idmap| && OfBinding(idmap[i], workspace, prefix);
    if idmap != [] {
      var most, last := idmap[..|idmap| - 1], idmap[|idmap| - 1];
      SelectExactly(most, workspace, prefix);
      var before := set i | 0 <= i < |most| && OfBinding(most[i], workspace, prefix);
      assert at == before + if OfBinding(last, workspace, prefix) then {|most|} else {};
      assert forall row :: row in idmap <==> row in most || row == last;
    }
  }

  lemma TargetsExactly(idmap: seq<IdMapRow>, workspace: string, prefix: string, ref: Ref)
    ensures ref in Targets(Select(idmap, workspace, prefix)) <==> IsTarget(ref, idmap, workspace, prefix)
  {
    hide Select, OfBinding;
    SelectExactly(idmap, workspace, prefix);
  }

  /** The issues that a sequence of identity rows points at. */
  function Targets(rows: seq<IdMapRow>): set<Ref> {
    set row | row in rows && row.hulyClass == ISSUE_CLASS :: row.hulyRef
  }

  ghost function MigrateAll(docs: map<Ref, Doc>, refs: set<Ref>): map<Ref, Doc> {
    map r | r in docs :: if r in refs then Migrate(docs[r]) else docs[r]
  }

  datatype Part = Whole | CorePart | ReviewPart

  ghost predicate Affects(d: Doc, part: Part) {
    && Splittable(d)
    && (part == CorePart ==> CoreWrites(d) != [])
    && (part == ReviewPart ==> ReviewWrites(d) != [])
  }

  /** The issues among `refs` for which the split writes the given part. */
  ghost function Split(docs: map<Ref, Doc>, refs: set<Ref>, part: Part): set<Ref> {
    set r | r in refs && r in docs && Affects(docs[r], part)
  }

  ghost predicate Counts(result: Result, docs: map<Ref, Doc>, refs: set<Ref>) {
    && result.stripped == |Split(docs, refs, Whole)|
    && result.coreWritten == |Split(docs, refs, CorePart)|
    && result.reviewWritten == |Split(docs, refs, ReviewPart)|
  }

  /** A row whose legacy mixin lacks a core field that the core mixin needs. */
  ghost function Unresolved(docs: map<Ref, Doc>, row: IdMapRow): nat {
    if row.hulyClass == ISSUE_CLASS && row.hulyRef in docs
       && NonEmpty(docs[row.hulyRef].legacy) && !Splittable(docs[row.hulyRef]) then 1 else 0
  }

  ghost function Unsplit(docs: map<Ref, Doc>, rows: seq<IdMapRow>): nat {
    if rows == [] then 0
    else
      Unsplit(docs, rows[..|rows| - 1]) + Unresolved(docs, rows[|rows| - 1])
  }

  /** A store left behind by any number of stopped runs is completed by one more run. */
  lemma StoreConverges(docs: map<Ref, Doc>, left: map<Ref, Doc>, refs: set<Ref>, stops: map<Ref, seq<nat>>)
    requires left.Keys == docs.Keys == stops.Keys
    requires forall r :: r in docs && r in refs ==> left[r] == Interrupted(docs[r], stops[r])
    requires forall r :: r in docs && r !in refs ==> left[r] == docs[r]
    ensures MigrateAll(left, refs) == MigrateAll(docs, refs)
  {
    forall r | r in docs && r in refs ensures Migrate(left[r]) == Migrate(docs[r]) {
      Converges(docs[r], stops[r]);
    }
  }

  lemma MigrateOneMore(docs: map<Ref, Doc>, refs: set<Ref>, r: Ref)
    requires r in docs
    ensures r in MigrateAll(docs, refs)
    ensures MigrateAll(docs, refs + {r}) == MigrateAll(docs, refs)[r := Migrate(MigrateAll(docs, refs)[r])]
    ensures MigrateAll(docs, refs)[r] == if r in refs then Migrate(docs[r]) else docs[r]
  {
    Idempotent(docs[r]);
  }

  lemma NothingLeft(d: Doc, part: Part)
    ensures !Affects(Migrate(d), part)
    ensures NonEmpty(Migrate(d).legacy) <==> NonEmpty(d.legacy) && !Splittable(d)
  {
    MigrateIs(d);
  }

  lemma SplitGrows(docs: map<Ref, Doc>, refs: set<Ref>, r: Ref, part: Part)
    ensures |Split(docs, refs + {r}, part)| ==
      |Split(docs, refs, part)| + if r in docs && r !in refs && Affects(docs[r], part) then 1 else 0
  {
    hide Affects;
    var before, after := Split(docs, refs, part), Split(docs, refs + {r}, part);
    if r in docs && r !in refs && Affects(docs[r], part) {
      assert after == before + {r};
    } else {
      assert after == before;
    }
  }

  datatype Result = Result(scanned: nat, stripped: nat, coreWritten: nat, reviewWritten: nat,
                           unresolved: nat, drainTimedOut: bool, success: bool)

  /** `pickFields`. */
  method PickFields(src: Attrs, keys: seq<Field>) returns (out: Attrs)
    ensures out == Picked(src, keys)
  {
    out := map[];
    for i := 0 to |keys|
      invariant out == Picked(src, keys[..i])
    {
      if keys[i] in src { out := out[keys[i] := src[keys[i]]]; }
    }
    assert keys[..|keys|] == keys;
  }

  /** `waitForBackfillDrain`: `inFlight` is the flag at each poll, the last one after the deadline. */
  method WaitForBackfillDrain(timeoutMs: int, inFlight: seq<bool>) returns (drained: bool)
    requires |inFlight| > 0
    ensures drained <==> timeoutMs <= 0 || exists i :: 0 <= i < |inFlight| && !inFlight[i]
  {
    if timeoutMs <= 0 { return true; }
    for i := 0 to |inFlight| - 1
      invariant forall j :: 0 <= j < i ==> inFlight[j]
    {
      if !inFlight[i] { return true; }
    }
    return !inFlight[|inFlight| - 1];
  }

  class HulyClient {
    var docs: map<Ref, Doc>
    /** The writes made, in order. */
    ghost var log: seq<(Ref, Write)>

    /** One createMixin or updateMixin; `start` and `done` say which document and writes came before. */
    method WriteMixin(ref: Ref, write: Write, ghost start: Doc, ghost done: seq<Write>)
      requires ref in docs && docs[ref] == ApplyAll(start, done)
      modifies this
      ensures docs == old(docs)[ref := ApplyAll(start, done + [write])]
      ensures log == old(log) + Tagged(ref, [write])
    {
      docs := docs[ref := Apply(docs[ref], write)];
      log := log + [(ref, write)];
      assert (done + [write])[..|done|] == done;
    }

    method EnsureCore(ref: Ref, doc: Doc) returns (complete: bool, wrote: bool)
      requires ref in docs && docs[ref] == doc && NonEmpty(doc.legacy)
      modifies this
      ensures complete <==> Splittable(doc)
      ensures wrote <==> complete && CoreWrites(doc) != []
      ensures docs == old(docs)[ref := if complete then ApplyAll(doc, CoreWrites(doc)) else doc]
      ensures log == old(log) + if complete then Tagged(ref, CoreWrites(doc)) else []
    {
      if NonEmpty(doc.core) { return true, false; }
      var payload := PickFields(doc.legacy.attrs, CORE_FIELD_KEYS);
      var missing := MissingKeys(payload, CORE_FIELD_KEYS);
      MissingExactly(doc, payload, missing);
      if missing != [] { return false, false; }
      WriteMixin(ref, WriteCore(Stamped(payload)), doc, []);
      assert [] + CoreWrites(doc) == CoreWrites(doc);
      return true, true;
    }

    method EnsureReview(ref: Ref, doc: Doc, ghost done: seq<Write>) returns (wrote: bool)
      requires ref in docs && docs[ref] == ApplyAll(doc, done) && NonEmpty(doc.legacy)
      modifies this
      ensures wrote <==> ReviewWrites(doc) != []
      ensures docs == old(docs)[ref := ApplyAll(doc, done + ReviewWrites(doc))]
      ensures log == old(log) + Tagged(ref, ReviewWrites(doc))
    {
      wrote := false;
      if !NonEmpty(doc.review) {
        var payload := PickFields(doc.legacy.attrs, REVIEW_FIELD_KEYS);
        if payload != map[] {
          WriteMixin(ref, WriteReview(Stamped(payload)), doc, done);
          return true;
        }
      }
      assert done + [] == done;
    }

    /** The loop body for one issue that was found. */
    method MigrateDoc(ref: Ref) returns (unresolved: bool, wroteCore: bool, wroteReview: bool, stripped: bool)
      requires ref in docs
      modifies this
      ensures docs == old(docs)[ref := Migrate(old(docs)[ref])]
      ensures log == old(log) + Tagged(ref, Plan(old(docs)[ref]))
      ensures unresolved <==> NonEmpty(old(docs)[ref].legacy) && !Splittable(old(docs)[ref])
      ensures stripped <==> Affects(old(docs)[ref], Whole)
      ensures wroteCore <==> Affects(old(docs)[ref], CorePart)
      ensures wroteReview <==> Affects(old(docs)[ref], ReviewPart)
    {
      hide ApplyAll, CoreWrites, ReviewWrites, Complete;
      unresolved, wroteCore, wroteReview, stripped := false, false, false, false;
      var doc := docs[ref];
      NoWrites(doc);
      if !NonEmpty(doc.legacy) { return; }
      var complete;
      complete, wroteCore := EnsureCore(ref, doc);
      if !complete { return true, false, false, false; }
      wroteReview := EnsureReview(ref, doc, CoreWrites(doc));
      WriteMixin(ref, Strip(doc.legacy.attrs.Keys), doc, CoreWrites(doc) + ReviewWrites(doc));
      stripped := true;
    }

    /** The loop body for one row, once the issues in `refs` have been visited. */
    method MigrateRow(row: IdMapRow, r: Result, ghost start: map<Ref, Doc>, ghost refs: set<Ref>) returns (result: Result)
      requires docs == MigrateAll(start, refs)
      requires Counts(r, start, refs)
      modifies this
      ensures docs == MigrateAll(start, Visited(refs, row))
      ensures Counts(result, start, Visited(refs, row))
      ensures WritesTo(old(log), log, if row.hulyClass == ISSUE_CLASS then {row.hulyRef} else {})
      ensures result.unresolved == r.unresolved + Unresolved(start, row)
      ensures result.scanned == r.scanned + 1
      ensures result.drainTimedOut == r.drainTimedOut && result.success == r.success
    {
      hide MigrateAll, Split, Migrate, Splittable, Plan, CoreWrites, ReviewWrites, WritesTo, Tagged;
      WritesNothing(log);
      WritesTagged(log, row.hulyRef, if row.hulyRef in docs then Plan(docs[row.hulyRef]) else []);
      result := r.(scanned := r.scanned + 1);
      MigrateSame(start, refs, row.hulyRef);
      SplitGrows(start, refs, row.hulyRef, Whole);
      SplitGrows(start, refs, row.hulyRef, CorePart);
      SplitGrows(start, refs, row.hulyRef, ReviewPart);
      if row.hulyClass == ISSUE_CLASS && row.hulyRef in docs {
        MigrateOneMore(start, refs, row.hulyRef);
        NothingLeft(start[row.hulyRef], Whole);
        NothingLeft(start[row.hulyRef], CorePart);
        NothingLeft(start[row.hulyRef], ReviewPart);
        var unresolved, wroteCore, wroteReview, stripped := MigrateDoc(row.hulyRef);
        result := result.(
          coreWritten := result.coreWritten + if wroteCore then 1 else 0,
          reviewWritten := result.reviewWritten + if wroteReview then 1 else 0,
          unresolved := result.unresolved + if unresolved then 1 else 0,
          stripped := result.stripped + if stripped then 1 else 0);
      }
    }

    /** `migrateMixinSplit`; `inFlight` and `paused` are what re-reading the binding shows. */
    method MigrateMixinSplit(idmap: seq<IdMapRow>, workspace: string, prefix: string,
                             timeoutMs: int, inFlight: seq<bool>, paused: bool) returns (result: Result)
      requires |inFlight| > 0
      modifies this
      ensures result.drainTimedOut <==> timeoutMs > 0 && forall i :: 0 <= i < |inFlight| ==> inFlight[i]
      ensures result.success <==> result.drainTimedOut || paused
      ensures var rows := Select(idmap, workspace, prefix);
        if result.drainTimedOut || !result.success
        then docs == old(docs) && log == old(log) && result == Result(0, 0, 0, 0, 0, result.drainTimedOut, result.success)
        else
          && docs == MigrateAll(old(docs), Targets(rows))
          && result.scanned == |rows|
          && Counts(result, old(docs), Targets(rows))
          && result.unresolved == Unsplit(old(docs), rows)
      // The binding's own merge requests are migrated, and nothing else is touched.
      ensures docs.Keys == old(docs.Keys) && old(log) <= log
      ensures forall r :: r in docs && docs[r] != old(docs)[r] ==> IsTarget(r, idmap, workspace, prefix)
      ensures forall k :: |old(log)| <= k < |log| ==> IsTarget(log[k].0, idmap, workspace, prefix)
      ensures result.success && !result.drainTimedOut ==>
        && (forall r :: r in docs && IsTarget(r, idmap, workspace, prefix) ==> docs[r] == Migrate(old(docs)[r]))
        && result.scanned == |set i | 0 <= i < |idmap| && OfBinding(idmap[i], workspace, prefix)|
        && result.stripped == |set r | r in old(docs) && IsTarget(r, idmap, workspace, prefix) && Affects(old(docs)[r], Whole)|
        && result.coreWritten == |set r | r in old(docs) && IsTarget(r, idmap, workspace, prefix) && Affects(old(docs)[r], CorePart)|
        && result.reviewWritten == |set r | r in old(docs) && IsTarget(r, idmap, workspace, prefix) && Affects(old(docs)[r], ReviewPart)|
        && result.unresolved == |StuckAt(old(docs), idmap, workspace, prefix)|
    {
      hide MigrateAll, Split, Migrate, Splittable, Plan, Unresolved, Unsplit, Select, Targets, IsTarget, OfBinding, StuckAt, Affects, WritesTo, Counts;
      result := Result(0, 0, 0, 0, 0, false, true);
      var drained := WaitForBackfillDrain(timeoutMs, inFlight);
      if !drained { return result.(drainTimedOut := true); }
      if !paused { return result.(success := false); }
      var rows := SelectRows(idmap, workspace, prefix);
      NothingVisited(docs);
      CountsNothing(result, docs);
      WritesNothing(log);
      UnsplitNothing(docs);
      assert rows[..0] == [];
      for i := 0 to |rows|
        invariant docs == MigrateAll(old(docs), Targets(rows[..i]))
        invariant result.scanned == i && !result.drainTimedOut && result.success
        invariant Counts(result, old(docs), Targets(rows[..i]))
        invariant result.unresolved == Unsplit(old(docs), rows[..i])
        invariant WritesTo(old(log), log, Targets(rows[..i]))
      {
        ghost var written := log;
        TargetsNext(rows, i);
        UnsplitNext(old(docs), rows, i);
        assert rows[..i + 1][..i] == rows[..i];
        result := MigrateRow(rows[i], result, old(docs), Targets(rows[..i]));
        WritesMore(old(log), written, log, Targets(rows[..i]), rows[i]);
      }
      assert rows[..|rows|] == rows;
      Isolated(old(docs), docs, old(log), log, idmap, workspace, prefix);
      SplitExactly(old(docs), idmap, workspace, prefix, Whole);
      SplitExactly(old(docs), idmap, workspace, prefix, CorePart);
      SplitExactly(old(docs), idmap, workspace, prefix, ReviewPart);
      CountsMean(result, old(docs), Targets(rows));
      UnsplitExactly(old(docs), idmap, workspace, prefix);
    }
  }

  lemma SplitExactly(docs: map<Ref, Doc>, idmap: seq<IdMapRow>, workspace: string, prefix: string, part: Part)
    ensures Split(docs, Targets(Select(idmap, workspace, prefix)), part)
         == set r | r in docs && IsTarget(r, idmap, workspace, prefix) && Affects(docs[r], part)
  {
    hide Select, Targets, IsTarget, Affects;
    forall r ensures r in Targets(Select(idmap, workspace, prefix)) <==> IsTarget(r, idmap, workspace, prefix) {
      TargetsExactly(idmap, workspace, prefix, r);
    }
  }

  lemma CountsMean(result: Result, docs: map<Ref, Doc>, refs: set<Ref>)
    requires Counts(result, docs, refs)
    ensures result.stripped == |Split(docs, refs, Whole)|
    ensures result.coreWritten == |Split(docs, refs, CorePart)|
    ensures result.reviewWritten == |Split(docs, refs, ReviewPart)|
  {
  }

  lemma UnsplitNothing(docs: map<Ref, Doc>)
    ensures Unsplit(docs, []) == 0
  {
  }

  lemma UnsplitNext(docs: map<Ref, Doc>, rows: seq<IdMapRow>, i: nat)
    requires i < |rows|
    ensures Unsplit(docs, rows[..i + 1]) == Unsplit(docs, rows[..i]) + Unresolved(docs, rows[i])
  {
    hide Unresolved;
    assert rows[..i + 1][..i] == rows[..i];
  }

  /** The issue of the row has a legacy mixin, no core mixin, and lacks a field to build one from. */
  ghost predicate Stuck(docs: map<Ref, Doc>, row: IdMapRow) {
    row.hulyClass == "tracker:class:Issue" && row.hulyRef in docs
    && var d := docs[row.hulyRef];
    Holds(d.legacy) && !Holds(d.core) && exists c: CoreField :: Core(c) !in Of(d.legacy)
  }

  lemma StuckExactly(docs: map<Ref, Doc>, row: IdMapRow)
    ensures Unresolved(docs, row) == if Stuck(docs, row) then 1 else 0
  {
    if row.hulyRef in docs {
      var d := docs[row.hulyRef];
      HoldsExactly(d.legacy);
      HoldsExactly(d.core);
    }
  }

  lemma UnsplitSelect(docs: map<Ref, Doc>, idmap: seq<IdMapRow>, workspace: string, prefix: string)
    requires idmap != []
    ensures var most, last := idmap[..|idmap| - 1], idmap[|idmap| - 1];
      Unsplit(docs, Select(idmap, workspace, prefix))
        == Unsplit(docs, Select(most, workspace, prefix))
         + if OfBinding(last, workspace, prefix) && Stuck(docs, last) then 1 else 0
  {
    hide Unresolved, Stuck;
    var most, last := idmap[..|idmap| - 1], idmap[|idmap| - 1];
    StuckExactly(docs, last);
    var rows := Select(most, workspace, prefix);
    assert (rows + [last])[..|rows|] == rows;
  }

  /** The positions of the binding's rows whose issue cannot be split. */
  ghost function StuckAt(docs: map<Ref, Doc>, idmap: seq<IdMapRow>, workspace: string, prefix: string): set<int> {
    set i | 0 <= i < |idmap| && OfBinding(idmap[i], workspace, prefix) && Stuck(docs, idmap[i])
  }

  lemma StuckAtNext(docs: map<Ref, Doc>, idmap: seq<IdMapRow>, workspace: string, prefix: string)
    requires idmap != []
    ensures var most, last := idmap[..|idmap| - 1], idmap[|idmap| - 1];
      |StuckAt(docs, idmap, workspace, prefix)| == |StuckAt(docs, most, workspace, prefix)|
        + if OfBinding(last, workspace, prefix) && Stuck(docs, last) then 1 else 0
  {
    hide Stuck, OfBinding;
    var most, last := idmap[..|idmap| - 1], idmap[|idmap| - 1];
    assert StuckAt(docs, idmap, workspace, prefix) == StuckAt(docs, most, workspace, prefix)
      + if OfBinding(last, workspace, prefix) && Stuck(docs, last) then {|most|} else {};
  }

  lemma {:induction false} UnsplitExactly(docs: map<Ref, Doc>, idmap: seq<IdMapRow>, workspace: string, prefix: string)
    ensures Unsplit(docs, Select(idmap, workspace, prefix)) == |StuckAt(docs, idmap, workspace, prefix)|
  {
    hide Stuck, OfBinding;
    if idmap != [] {
      hide Select, Unsplit, StuckAt;
      UnsplitExactly(docs, idmap[..|idmap| - 1], workspace, prefix);
      UnsplitSelect(docs, idmap, workspace, prefix);
      StuckAtNext(docs, idmap, workspace, prefix);
    }
  }

  /** The writes made since `before` are to documents among `refs`. */
  ghost predicate WritesTo(before: seq<(Ref, Write)>, after: seq<(Ref, Write)>, refs: set<Ref>) {
    before <= after && forall k :: |before| <= k < |after| ==> after[k].0 in refs
  }

  lemma WritesTagged(log: seq<(Ref, Write)>, ref: Ref, ws: seq<Write>)
    ensures WritesTo(log, log + Tagged(ref, ws), {ref})
  {
  }

  lemma WritesNothing(log: seq<(Ref, Write)>)
    ensures forall refs :: WritesTo(log, log, refs)
  {
  }

  lemma CountsNothing(result: Result, docs: map<Ref, Doc>)
    requires result.stripped == 0 && result.coreWritten == 0 && result.reviewWritten == 0
    ensures Counts(result, docs, {})
  {
    NothingVisited(docs);
  }

  lemma WritesMore(a: seq<(Ref, Write)>, b: seq<(Ref, Write)>, c: seq<(Ref, Write)>, refs: set<Ref>, row: IdMapRow)
    requires WritesTo(a, b, refs) && WritesTo(b, c, if row.hulyClass == ISSUE_CLASS then {row.hulyRef} else {})
    ensures WritesTo(a, c, Visited(refs, row))
  {
  }

  lemma Isolated(docs: map<Ref, Doc>, docs': map<Ref, Doc>, log: seq<(Ref, Write)>, log': seq<(Ref, Write)>,
                 idmap: seq<IdMapRow>, workspace: string, prefix: string)
    requires var refs := Targets(Select(idmap, workspace, prefix));
      docs' == MigrateAll(docs, refs) && WritesTo(log, log', refs)
    ensures docs'.Keys == docs.Keys && log <= log'
    ensures forall r :: r in docs' ==>
      docs'[r] == if IsTarget(r, idmap, workspace, prefix) then Migrate(docs[r]) else docs[r]
    ensures forall k :: |log| <= k < |log'| ==> IsTarget(log'[k].0, idmap, workspace, prefix)
    ensures |Select(idmap, workspace, prefix)| == |set i | 0 <= i < |idmap| && OfBinding(idmap[i], workspace, prefix)|
  {
    hide Select, Targets, IsTarget, OfBinding, Migrate;
    SelectExactly(idmap, workspace, prefix);
    forall r ensures r in Targets(Select(idmap, workspace, prefix)) <==> IsTarget(r, idmap, workspace, prefix) {
      TargetsExactly(idmap, workspace, prefix, r);
    }
  }

  method SelectRows(idmap: seq<IdMapRow>, workspace: string, prefix: string) returns (rows: seq<IdMapRow>)
    ensures rows == Select(idmap, workspace, prefix)
  {
    rows := [];
    for i := 0 to |idmap|
      invariant rows == Select(idmap[..i], workspace, prefix)
    {
      assert idmap[..i + 1][..i] == idmap[..i];
      if Selected(idmap[i], workspace, prefix) { rows := rows + [idmap[i]]; }
    }
    assert idmap[..|idmap|] == idmap;
  }

  function Visited(refs: set<Ref>, row: IdMapRow): set<Ref> {
    if row.hulyClass == ISSUE_CLASS then refs + {row.hulyRef} else refs
  }

  lemma TargetsNext(rows: seq<IdMapRow>, i: nat)
    requires i < |rows|
    ensures Targets(rows[..i + 1]) == Visited(Targets(rows[..i]), rows[i])
  {
    assert rows[..i + 1] == rows[..i] + [rows[i]];
    assert rows[i] in rows[..i + 1];
  }

  lemma NothingVisited(docs: map<Ref, Doc>)
    ensures Targets([]) == {}
    ensures MigrateAll(docs, {}) == docs && forall part :: Split(docs, {}, part) == {}
  {
  }

  lemma MigrateSame(docs: map<Ref, Doc>, refs: set<Ref>, r: Ref)
    ensures MigrateAll(docs, refs).Keys == docs.Keys
    ensures r !in docs ==> MigrateAll(docs, refs + {r}) == MigrateAll(docs, refs)
  {
  }

  lemma NoWrites(d: Doc)
    ensures ApplyAll(d, []) == d
  {
  }

  function Tagged(ref: Ref, ws: seq<Write>): seq<(Ref, Write)> {
    seq(|ws|, i requires 0 <= i < |ws| => (ref, ws[i]))
  }

  method MissingKeys(payload: Attrs, keys: seq<Field>) returns (missing: seq<Field>)
    ensures forall f :: f in missing <==> f in keys && f !in payload
  {
    missing := [];
    for i := 0 to |keys|
      invariant forall f :: f in missing <==> f in keys[..i] && f !in payload
    {
      if keys[i] !in payload { missing := missing + [keys[i]]; }
    }
  }

  lemma MissingExactly(doc: Doc, payload: Attrs, missing: seq<Field>)
    requires payload == Picked(Of(doc.legacy), CORE_FIELD_KEYS)
    requires forall f :: f in missing <==> f in CORE_FIELD_KEYS && f !in payload
    ensures missing == [] <==> Complete(doc)
  {
    forall c: CoreField ensures Core(c) in Of(doc.legacy) <==> Core(c) !in missing {
      CoreKeysComplete(Core(c));
      PickedKeys(Of(doc.legacy), Core(c));
    }
    if missing != [] {
      CoreKeysComplete(missing[0]);
      PickedKeys(Of(doc.legacy), missing[0]);
      assert missing[0] == Core(missing[0].core);
    }
  }
}
