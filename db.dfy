/**
 * lib/db.ts: the partial-update statement `updatePassword` builds from the
 * fields it is given, and the plant type a strength score earns.
 *
 * The SQL text is kept as structure: a SET clause is the column it writes and
 * the number of its `$n` placeholder, and a value is the parameter pushed
 * with it. Executing the statement is not part of this model.
 */
module Db {
  import opened Wrappers

  // ---------------------------------------------------------------------
  // Plant type by strength (lib/db.ts:182-188)
  // ---------------------------------------------------------------------

  /** The plant types from the weakest band to the strongest. */
  const PlantTypes: seq<string> := ["semente", "grama", "arbusto", "flor", "arvore"]

  /** How many of the thresholds 30, 50, 70 and 90 a score reaches. */
  function PlantBand(strength: int): (b: nat)
    ensures b < 5
  {
    (if strength >= 30 then 1 else 0) + (if strength >= 50 then 1 else 0)
    + (if strength >= 70 then 1 else 0) + (if strength >= 90 then 1 else 0)
  }

  function GetPlantTypeByStrength(strength: int): (plantType: string)
    ensures plantType == PlantTypes[PlantBand(strength)]
  {
    if strength >= 90 then "arvore"
    else if strength >= 70 then "flor"
    else if strength >= 50 then "arbusto"
    else if strength >= 30 then "grama"
    else "semente"
  }

  /** A stronger secret never grows a plant of a lower band, and two scores get the same plant
      exactly when they reach the same thresholds. */
  lemma PlantTypeMonotone(a: int, b: int)
    ensures a <= b ==> PlantBand(a) <= PlantBand(b)
    ensures GetPlantTypeByStrength(a) == GetPlantTypeByStrength(b) <==> PlantBand(a) == PlantBand(b)
  {
    var i, j := PlantBand(a), PlantBand(b);
    if i != j {
      // the third letters "m", "a", "b", "o", "v" tell the five names apart
      assert PlantTypes[i][2] != PlantTypes[j][2];
    }
  }

  // ---------------------------------------------------------------------
  // The update statement (lib/db.ts:69-153)
  // ---------------------------------------------------------------------

  /** The fields of `data`; `None` is a field left `undefined`. */
  datatype PasswordUpdate = PasswordUpdate(
    title: Option<string>,
    username: Option<string>,
    encryptedPassword: Option<string>,
    website: Option<string>,
    category: Option<string>,
    strength: Option<int>,
    notes: Option<string>,
    favorite: Option<bool>)

  datatype Column =
    | Title | Username | PasswordEncrypted | Strength | PlantType | GrowthStage
    | Website | Category | Notes | Favorite | UpdatedAt

  datatype SetClause =
    | Assign(column: Column, placeholder: nat)  // `column = $placeholder`
    | IncrementGrowthStage                      // `growth_stage = growth_stage + 1`
    | TouchUpdatedAt                            // `updated_at = CURRENT_TIMESTAMP`

  datatype SqlValue = Text(text: string) | Number(number: int) | Flag(flag: bool)

  /** `UPDATE passwords SET <setClauses> WHERE id = $<idPlaceholder> AND user_id = $<userIdPlaceholder>`
      run with the parameters `values`. */
  datatype UpdateQuery = UpdateQuery(
    setClauses: seq<SetClause>,
    values: seq<SqlValue>,
    idPlaceholder: nat,
    userIdPlaceholder: nat)

  /** The column `updatePassword` tests k-th. */
  function ColumnAt(k: nat): (c: Column)
    requires k < 11
    ensures Rank(c) == k
  {
    match k
    case 0 => Title
    case 1 => Username
    case 2 => PasswordEncrypted
    case 3 => Strength
    case 4 => PlantType
    case 5 => GrowthStage
    case 6 => Website
    case 7 => Category
    case 8 => Notes
    case 9 => Favorite
    case _ => UpdatedAt
  }

  /** The order in which `updatePassword` tests the fields (lib/db.ts:87-136). */
  const ColumnOrder: seq<Column> :=
    [Title, Username, PasswordEncrypted, Strength, PlantType, GrowthStage, Website, Category, Notes, Favorite, UpdatedAt]

  lemma ColumnOrderAt()
    ensures |ColumnOrder| == 11
    ensures forall k :: 0 <= k < 11 ==> ColumnOrder[k] == ColumnAt(k)
  {
  }

  function Rank(c: Column): nat
  {
    match c
    case Title => 0
    case Username => 1
    case PasswordEncrypted => 2
    case Strength => 3
    case PlantType => 4
    case GrowthStage => 5
    case Website => 6
    case Category => 7
    case Notes => 8
    case Favorite => 9
    case UpdatedAt => 10
  }

  /** Whether the statement writes a column: its field is defined; the three strength columns
      also need a new encrypted secret; `updated_at` always. */
  predicate Writes(data: PasswordUpdate, c: Column)
  {
    match c
    case Title => data.title.Some?
    case Username => data.username.Some?
    case PasswordEncrypted => data.encryptedPassword.Some?
    case Strength => data.encryptedPassword.Some? && data.strength.Some?
    case PlantType => data.encryptedPassword.Some? && data.strength.Some?
    case GrowthStage => data.encryptedPassword.Some? && data.strength.Some?
    case Website => data.website.Some?
    case Category => data.category.Some?
    case Notes => data.notes.Some?
    case Favorite => data.favorite.Some?
    case UpdatedAt => true
  }

  /** The columns of `cols` the statement writes, in the order of `cols`. */
  function Select(cols: seq<Column>, data: PasswordUpdate): seq<Column>
  {
    if cols == [] then []
    else
      var last := cols[|cols| - 1];
      Select(cols[..|cols| - 1], data) + (if Writes(data, last) then [last] else [])
  }

  /** Strictly increasing by rank. */
  predicate Ordered(cols: seq<Column>)
  {
    forall i, j :: 0 <= i < j < |cols| ==> Rank(cols[i]) < Rank(cols[j])
  }

  /** The columns the statement should write, in the fixed order. */
  function Expected(data: PasswordUpdate): seq<Column>
  {
    Select(ColumnOrder, data)
  }

  /** Whether a clause is the one that writes `col`. */
  predicate ClauseFor(clause: SetClause, col: Column)
  {
    match col
    case GrowthStage => clause == IncrementGrowthStage
    case UpdatedAt => clause == TouchUpdatedAt
    case _ => clause.Assign? && clause.column == col
  }

  /** The clauses write exactly the expected columns, in order. */
  ghost predicate Shape(data: PasswordUpdate, clauses: seq<SetClause>)
  {
    var cols := Expected(data);
    |clauses| == |cols| && forall i :: 0 <= i < |clauses| ==> ClauseFor(clauses[i], cols[i])
  }

  /** The parameter pushed for a parameterised column. */
  function ValueFor(data: PasswordUpdate, c: Column): SqlValue
    requires Writes(data, c) && c != GrowthStage && c != UpdatedAt
  {
    match c
    case Title => Text(data.title.value)
    case Username => Text(data.username.value)
    case PasswordEncrypted => Text(data.encryptedPassword.value)
    case Strength => Number(data.strength.value)
    case PlantType => Text(GetPlantTypeByStrength(data.strength.value))
    case Website => Text(data.website.value)
    case Category => Text(data.category.value)
    case Notes => Text(data.notes.value)
    case Favorite => Flag(data.favorite.value)
  }

  predicate WritesAll(data: PasswordUpdate, clauses: seq<SetClause>)
  {
    forall i :: 0 <= i < |clauses| && clauses[i].Assign? ==>
      Writes(data, clauses[i].column) && clauses[i].column != GrowthStage && clauses[i].column != UpdatedAt
  }

  /** The parameters of the `Assign` clauses, in clause order. */
  function ClauseValues(data: PasswordUpdate, clauses: seq<SetClause>): seq<SqlValue>
    requires WritesAll(data, clauses)
  {
    if clauses == [] then []
    else
      var last := clauses[|clauses| - 1];
      ClauseValues(data, clauses[..|clauses| - 1])
      + (if last.Assign? then [ValueFor(data, last.column)] else [])
  }

  /** The number of `Assign` clauses. */
  function Assigns(clauses: seq<SetClause>): (n: nat)
    ensures n <= |clauses|
  {
    if clauses == [] then 0
    else Assigns(clauses[..|clauses| - 1]) + (if clauses[|clauses| - 1].Assign? then 1 else 0)
  }

  /** Each placeholder is the position of its clause in the SET list (what lib/db.ts:88 writes). */
  predicate NumberedByPosition(clauses: seq<SetClause>)
  {
    forall i :: 0 <= i < |clauses| && clauses[i].Assign? ==> clauses[i].placeholder == i + 1
  }

  /** Each placeholder is the position of its own value in the parameter list (what lib/db.ts:145 does for id and userId). */
  predicate NumberedByValue(clauses: seq<SetClause>)
  {
    forall i :: 0 <= i < |clauses| && clauses[i].Assign? ==> clauses[i].placeholder == Assigns(clauses[..i]) + 1
  }

  /** How a parameterised clause picks its `$n`. */
  datatype Numbering =
    | ByClause  // `$${updateFields.length + 1}`, as lib/db.ts:88 writes it
    | ByValue   // `$${values.length + 1}`, the slot its own value is pushed into

  predicate Numbered(clauses: seq<SetClause>, numbering: Numbering)
  {
    match numbering
    case ByClause => NumberedByPosition(clauses)
    case ByValue => NumberedByValue(clauses)
  }

  /**
   * What the statement built from `data` is: it writes the expected columns
   * in order, its parameters are those of its `Assign` clauses followed by
   * `id` and `userId`, the WHERE placeholders are the last two slots, and the
   * `Assign` placeholders follow `numbering`.
   */
  ghost predicate Statement(data: PasswordUpdate, id: int, userId: int, numbering: Numbering, q: UpdateQuery)
  {
    && Shape(data, q.setClauses)
    && WritesAll(data, q.setClauses)
    && q.values == ClauseValues(data, q.setClauses) + [Number(id), Number(userId)]
    && q.idPlaceholder == |q.values| - 1
    && q.userIdPlaceholder == |q.values|
    && Numbered(q.setClauses, numbering)
  }

  lemma {:induction false} SelectWrites(cols: seq<Column>, data: PasswordUpdate)
    ensures forall c :: c in Select(cols, data) <==> c in cols && Writes(data, c)
  {
    if cols != [] {
      var init := cols[..|cols| - 1];
      SelectWrites(init, data);
      assert cols == init + [cols[|cols| - 1]];
    }
  }

  lemma {:induction false} SelectOrdered(cols: seq<Column>, data: PasswordUpdate)
    requires Ordered(cols)
    ensures Ordered(Select(cols, data))
  {
    if cols != [] {
      var init, last := cols[..|cols| - 1], cols[|cols| - 1];
      var front := Select(init, data);
      SelectOrdered(init, data);
      SelectWrites(init, data);
      if Writes(data, last) {
        var s := Select(cols, data);
        assert s == front + [last];
        forall i, j | 0 <= i < j < |s| ensures Rank(s[i]) < Rank(s[j]) {
          assert s[i] == front[i];
          if j == |s| - 1 {
            assert front[i] in init;
            var m :| 0 <= m < |init| && init[m] == front[i];
            assert cols[m] == front[i];
          } else {
            assert s[j] == front[j];
          }
        }
      }
    }
  }

  /**
   * A column is written iff its field is defined (the strength columns also
   * needing a new encrypted secret); the columns follow the fixed order; and
   * `updated_at` is always written, last, so the list is never empty.
   */
  lemma ExpectedColumns(data: PasswordUpdate)
    ensures forall c :: c in Expected(data) <==> Writes(data, c)
    ensures Ordered(Expected(data))
    ensures |Expected(data)| >= 1 && Expected(data)[|Expected(data)| - 1] == UpdatedAt
  {
    SelectWrites(ColumnOrder, data);
    ColumnOrderAt();
    SelectOrdered(ColumnOrder, data);
    var e := Expected(data);
    assert UpdatedAt in e;
    var k :| 0 <= k < |e| && e[k] == UpdatedAt;
    if k < |e| - 1 {
      assert Rank(e[k]) < Rank(e[|e| - 1]);
    }
  }

  /** A strength given without a new encrypted secret is dropped, and so are the plant type and growth. */
  lemma StrengthNeedsPassword(data: PasswordUpdate)
    requires data.encryptedPassword.None?
    ensures Strength !in Expected(data) && PlantType !in Expected(data) && GrowthStage !in Expected(data)
  {
    ExpectedColumns(data);
  }

  /** The first k + 1 columns select what the first k do, and then column k if it is written. */
  lemma SelectNext(data: PasswordUpdate, k: nat)
    requires k < |ColumnOrder|
    ensures Select(ColumnOrder[..k + 1], data)
            == Select(ColumnOrder[..k], data) + (if Writes(data, ColumnOrder[k]) then [ColumnOrder[k]] else [])
  {
    assert ColumnOrder[..k + 1][..k] == ColumnOrder[..k];
  }

  lemma {:induction false} ClauseValuesLength(data: PasswordUpdate, clauses: seq<SetClause>)
    requires WritesAll(data, clauses)
    ensures |ClauseValues(data, clauses)| == Assigns(clauses)
  {
    if clauses != [] {
      ClauseValuesLength(data, clauses[..|clauses| - 1]);
    }
  }

  /** The value of the i-th clause sits in the slot after the values of the `Assign` clauses before it. */
  lemma {:induction false} ClauseValuesAt(data: PasswordUpdate, clauses: seq<SetClause>, i: nat)
    requires WritesAll(data, clauses) && i < |clauses| && clauses[i].Assign?
    ensures Assigns(clauses[..i]) < |ClauseValues(data, clauses)|
    ensures ClauseValues(data, clauses)[Assigns(clauses[..i])] == ValueFor(data, clauses[i].column)
  {
    var init := clauses[..|clauses| - 1];
    ClauseValuesLength(data, init);
    if i == |clauses| - 1 {
      assert clauses[..i] == init;
    } else {
      ClauseValuesAt(data, init, i);
      assert init[..i] == clauses[..i];
    }
  }

  /** A prefix counts as many `Assign` clauses as it is long iff all of them are `Assign`. */
  lemma {:induction false} AssignsAll(clauses: seq<SetClause>)
    ensures Assigns(clauses) == |clauses| <==> forall j :: 0 <= j < |clauses| ==> clauses[j].Assign?
  {
    if clauses != [] {
      var init := clauses[..|clauses| - 1];
      AssignsAll(init);
      if Assigns(clauses) == |clauses| {
        forall j | 0 <= j < |clauses| ensures clauses[j].Assign? {
          if j < |init| {
            assert init[j] == clauses[j];
          }
        }
      }
    }
  }

  /** The statement after `updatePassword` has dealt with the first k columns. */
  ghost predicate Built(data: PasswordUpdate, numbering: Numbering, clauses: seq<SetClause>, values: seq<SqlValue>, k: nat)
    requires k <= |ColumnOrder|
  {
    var cols := Select(ColumnOrder[..k], data);
    && |clauses| == |cols|
    && (forall i :: 0 <= i < |clauses| ==> ClauseFor(clauses[i], cols[i]))
    && WritesAll(data, clauses)
    && values == ClauseValues(data, clauses)
    && Numbered(clauses, numbering)
  }

  /** The SET list and parameters once `updatePassword` has dealt with the first k columns. */
  datatype Draft = Draft(clauses: seq<SetClause>, values: seq<SqlValue>)

  function NextPlaceholder(d: Draft, numbering: Numbering): nat
  {
    match numbering
    case ByClause => |d.clauses| + 1
    case ByValue => |d.values| + 1
  }

  /** What `updatePassword` does with one column: push its clause, and its parameter when it has one. */
  function Step(data: PasswordUpdate, numbering: Numbering, d: Draft, c: Column): Draft
  {
    if !Writes(data, c) then d
    else if c == GrowthStage then Draft(d.clauses + [IncrementGrowthStage], d.values)
    else if c == UpdatedAt then Draft(d.clauses + [TouchUpdatedAt], d.values)
    else Draft(d.clauses + [Assign(c, NextPlaceholder(d, numbering))], d.values + [ValueFor(data, c)])
  }

  function DraftAfter(data: PasswordUpdate, numbering: Numbering, k: nat): Draft
    requires k <= |ColumnOrder|
  {
    if k == 0 then Draft([], []) else Step(data, numbering, DraftAfter(data, numbering, k - 1), ColumnAt(k - 1))
  }

  /** One step keeps the clauses in line with the columns selected so far. */
  lemma StepShape(data: PasswordUpdate, numbering: Numbering, k: nat, d: Draft)
    requires k < |ColumnOrder|
    requires var cols := Select(ColumnOrder[..k], data);
      |d.clauses| == |cols| && forall i :: 0 <= i < |d.clauses| ==> ClauseFor(d.clauses[i], cols[i])
    ensures var cols, next := Select(ColumnOrder[..k + 1], data), Step(data, numbering, d, ColumnOrder[k]).clauses;
      |next| == |cols| && forall i :: 0 <= i < |next| ==> ClauseFor(next[i], cols[i])
  {
    SelectNext(data, k);
  }

  /** One step pushes exactly the parameter of the clause it pushes. */
  lemma StepValues(data: PasswordUpdate, numbering: Numbering, d: Draft, c: Column)
    requires WritesAll(data, d.clauses) && d.values == ClauseValues(data, d.clauses)
    ensures var next := Step(data, numbering, d, c);
      WritesAll(data, next.clauses) && next.values == ClauseValues(data, next.clauses)
  {
    var next := Step(data, numbering, d, c).clauses;
    if Writes(data, c) {
      assert next[..|next| - 1] == d.clauses;
    }
  }

  /** One step numbers the clause it pushes by the chosen rule. */
  lemma StepNumbered(data: PasswordUpdate, numbering: Numbering, d: Draft, c: Column)
    requires WritesAll(data, d.clauses) && d.values == ClauseValues(data, d.clauses)
    requires Numbered(d.clauses, numbering)
    ensures Numbered(Step(data, numbering, d, c).clauses, numbering)
  {
    var next := Step(data, numbering, d, c).clauses;
    if Writes(data, c) && numbering == ByValue {
      ClauseValuesLength(data, d.clauses);
      forall i | 0 <= i < |next| && next[i].Assign? ensures next[i].placeholder == Assigns(next[..i]) + 1 {
        assert next[..i] == d.clauses[..i];
      }
    }
  }

  lemma BuiltStep(data: PasswordUpdate, numbering: Numbering, k: nat, d: Draft)
    requires k < |ColumnOrder| && Built(data, numbering, d.clauses, d.values, k)
    ensures var next := Step(data, numbering, d, ColumnOrder[k]); Built(data, numbering, next.clauses, next.values, k + 1)
  {
    StepShape(data, numbering, k, d);
    StepValues(data, numbering, d, ColumnOrder[k]);
    StepNumbered(data, numbering, d, ColumnOrder[k]);
  }

  lemma {:induction false} DraftBuilt(data: PasswordUpdate, numbering: Numbering, k: nat)
    requires k <= |ColumnOrder|
    ensures var d := DraftAfter(data, numbering, k); Built(data, numbering, d.clauses, d.values, k)
  {
    if k > 0 {
      DraftBuilt(data, numbering, k - 1);
      assert ColumnOrder[k - 1] == ColumnAt(k - 1) by { ColumnOrderAt(); }
      BuiltStep(data, numbering, k - 1, DraftAfter(data, numbering, k - 1));
    }
  }

  /** The statement made from the final draft is the one `Statement` describes. */
  lemma DraftStatement(data: PasswordUpdate, id: int, userId: int, numbering: Numbering, d: Draft)
    requires d == DraftAfter(data, numbering, |ColumnOrder|)
    ensures Statement(data, id, userId, numbering,
                      UpdateQuery(d.clauses, d.values + [Number(id), Number(userId)], |d.values| + 1, |d.values| + 2))
  {
    DraftBuilt(data, numbering, |ColumnOrder|);
    assert ColumnOrder[..|ColumnOrder|] == ColumnOrder;
  }

  /**
   * One `if (data.<field> !== undefined)` block of lib/db.ts:87-133: when the
   * statement writes column k, push `<column> = $<n>` and the field's value.
   */
  method PushField(data: PasswordUpdate, numbering: Numbering, k: nat, updateFields: seq<SetClause>, values: seq<SqlValue>)
    returns (updateFields': seq<SetClause>, values': seq<SqlValue>)
    requires k < |ColumnOrder| && ColumnAt(k) != GrowthStage && ColumnAt(k) != UpdatedAt
    requires Draft(updateFields, values) == DraftAfter(data, numbering, k)
    ensures Draft(updateFields', values') == DraftAfter(data, numbering, k + 1)
  {
    var column := ColumnAt(k);
    if Writes(data, column) {
      var n := if numbering == ByClause then |updateFields| + 1 else |values| + 1;
      updateFields' := updateFields + [Assign(column, n)];
      values' := values + [ValueFor(data, column)];
    } else {
      updateFields', values' := updateFields, values;
    }
  }

  /** lib/db.ts:84-149 with the placeholders numbered by `numbering`. */
  method BuildUpdate(id: int, userId: int, data: PasswordUpdate, numbering: Numbering) returns (q: UpdateQuery)
    ensures Statement(data, id, userId, numbering, q)
  {
    var updateFields: seq<SetClause> := [];
    var values: seq<SqlValue> := [];
    updateFields, values := PushField(data, numbering, 0, updateFields, values);  // title
    updateFields, values := PushField(data, numbering, 1, updateFields, values);  // username
    updateFields, values := PushField(data, numbering, 2, updateFields, values);  // password_encrypted
    // strength, plant_type and growth_stage only beside a new password_encrypted
    updateFields, values := PushField(data, numbering, 3, updateFields, values);
    updateFields, values := PushField(data, numbering, 4, updateFields, values);
    if data.encryptedPassword.Some? && data.strength.Some? {
      updateFields := updateFields + [IncrementGrowthStage];
    }
    assert Draft(updateFields, values) == DraftAfter(data, numbering, 6);
    updateFields, values := PushField(data, numbering, 6, updateFields, values);  // website
    updateFields, values := PushField(data, numbering, 7, updateFields, values);  // category
    updateFields, values := PushField(data, numbering, 8, updateFields, values);  // notes
    updateFields, values := PushField(data, numbering, 9, updateFields, values);  // favorite
    updateFields := updateFields + [TouchUpdatedAt];
    assert Draft(updateFields, values) == DraftAfter(data, numbering, 11);

    // `updateFields` is never empty here, so the `return null` of lib/db.ts:138-140 cannot run.
    DraftStatement(data, id, userId, numbering, Draft(updateFields, values));
    q := UpdateQuery(updateFields, values + [Number(id), Number(userId)], |values| + 1, |values| + 2);
  }

  /** `updatePassword` as written: each placeholder is one more than the number of clauses before it. */
  method UpdatePassword(id: int, userId: int, data: PasswordUpdate) returns (q: UpdateQuery)
    ensures Statement(data, id, userId, ByClause, q)
  {
    q := BuildUpdate(id, userId, data, ByClause);
  }

  /** `updatePassword` with each placeholder numbered by the slot its value is pushed into. */
  method UpdatePasswordCorrected(id: int, userId: int, data: PasswordUpdate) returns (q: UpdateQuery)
    ensures Statement(data, id, userId, ByValue, q)
  {
    q := BuildUpdate(id, userId, data, ByValue);
  }

  /** With value numbering every `$n` of the statement binds the value meant for it, `id` and `userId` included. */
  lemma PlaceholdersBindOwnValues(data: PasswordUpdate, id: int, userId: int, q: UpdateQuery)
    requires Statement(data, id, userId, ByValue, q)
    ensures forall i :: 0 <= i < |q.setClauses| && q.setClauses[i].Assign? ==>
      var p := q.setClauses[i].placeholder;
      1 <= p <= |q.values| - 2 && q.values[p - 1] == ValueFor(data, q.setClauses[i].column)
    ensures 1 <= q.idPlaceholder && q.values[q.idPlaceholder - 1] == Number(id)
    ensures 1 <= q.userIdPlaceholder && q.values[q.userIdPlaceholder - 1] == Number(userId)
  {
    var cl := q.setClauses;
    forall i | 0 <= i < |cl| && cl[i].Assign?
      ensures 1 <= cl[i].placeholder <= |q.values| - 2
      ensures q.values[cl[i].placeholder - 1] == ValueFor(data, cl[i].column)
    {
      ClauseValuesAt(data, cl, i);
    }
  }

  /** A new strength together with any of website, category, notes or favorite. */
  predicate MisNumbered(data: PasswordUpdate)
  {
    && data.encryptedPassword.Some? && data.strength.Some?
    && (data.website.Some? || data.category.Some? || data.notes.Some? || data.favorite.Some?)
  }

  /**
   * The numbering as written agrees with the values exactly when no
   * parameterised clause follows the `growth_stage` clause, that is unless a
   * new strength comes with any of website, category, notes or favorite.
   */
  lemma AsWrittenNumberingIff(data: PasswordUpdate, id: int, userId: int, q: UpdateQuery)
    requires Statement(data, id, userId, ByClause, q)
    ensures NumberedByValue(q.setClauses) <==> !MisNumbered(data)
  {
    if MisNumbered(data) {
      MisNumberedBreaks(data, id, userId, q);
    } else {
      WellNumbered(data, id, userId, q);
    }
  }

  lemma MisNumberedBreaks(data: PasswordUpdate, id: int, userId: int, q: UpdateQuery)
    requires Statement(data, id, userId, ByClause, q) && MisNumbered(data)
    ensures !NumberedByValue(q.setClauses)
  {
    PositionNumberingBreaks(data, q.setClauses);
  }

  /** The clause list alone: positions and value counts part at the first clause after growth_stage. */
  lemma PositionNumberingBreaks(data: PasswordUpdate, cl: seq<SetClause>)
    requires Shape(data, cl) && NumberedByPosition(cl) && MisNumbered(data)
    ensures !NumberedByValue(cl)
  {
    var g, w := LaterAfterGrowth(data);
    assert !cl[g].Assign? && cl[w].Assign?;
    AssignsAll(cl[..w]);
    assert !cl[..w][g].Assign?;
    assert cl[w].placeholder == w + 1 != Assigns(cl[..w]) + 1;
  }

  /** With a misnumbered update, growth_stage is written at some g and a parameterised column later, at w. */
  lemma LaterAfterGrowth(data: PasswordUpdate) returns (g: nat, w: nat)
    requires MisNumbered(data)
    ensures g < w < |Expected(data)|
    ensures Expected(data)[g] == GrowthStage
    ensures Expected(data)[w] in {Website, Category, Notes, Favorite}
  {
    var e := Expected(data);
    ExpectedColumns(data);
    var later :=
      if data.website.Some? then Website
      else if data.category.Some? then Category
      else if data.notes.Some? then Notes
      else Favorite;
    assert GrowthStage in e && later in e;
    g :| 0 <= g < |e| && e[g] == GrowthStage;
    w :| 0 <= w < |e| && e[w] == later;
    assert Rank(e[g]) < Rank(e[w]);
  }

  lemma WellNumbered(data: PasswordUpdate, id: int, userId: int, q: UpdateQuery)
    requires Statement(data, id, userId, ByClause, q) && !MisNumbered(data)
    ensures NumberedByValue(q.setClauses)
  {
    var cl, e := q.setClauses, Expected(data);
    ExpectedColumns(data);
    forall i | 0 <= i < |cl| && cl[i].Assign? ensures cl[i].placeholder == Assigns(cl[..i]) + 1 {
      forall j | 0 <= j < i ensures cl[..i][j].Assign? {
        assert e[i] in e && e[j] in e;
        assert Rank(e[j]) < Rank(e[i]);
      }
      AssignsAll(cl[..i]);
    }
  }

  /** A new secret with strength 80 and a website. */
  const WebsiteExample := PasswordUpdate(None, None, Some("c1"), Some("w"), None, Some(80), None, None)

  /**
   * With the numbering as written, website is bound to `$5`, which is the
   * slot of `id`, while its own value sits unreferenced in slot 4.
   */
  lemma WebsiteTakesIdSlot(id: int, userId: int, q: UpdateQuery)
    requires Statement(WebsiteExample, id, userId, ByClause, q)
    ensures |q.setClauses| == 6 && |q.values| == 6
    ensures q.setClauses[4] == Assign(Website, 5) && q.idPlaceholder == 5
    ensures q.values[3] == Text("w") && q.values[4] == Number(id)
    ensures forall i :: 0 <= i < |q.setClauses| && q.setClauses[i].Assign? ==> q.setClauses[i].placeholder != 4
  {
    var data := WebsiteExample;
    ExpectedOfExample();
    var cl := q.setClauses;
    assert cl[0].Assign? && cl[1].Assign? && cl[2].Assign?;
    assert cl[3] == IncrementGrowthStage && cl[4] == Assign(Website, 5) && cl[5] == TouchUpdatedAt;
    AssignsAll(cl[..3]);
    assert cl[..4][..3] == cl[..3];
    assert cl[..5][..4] == cl[..4];
    assert cl[..6][..5] == cl[..5];
    assert cl[..6] == cl;
    assert Assigns(cl[..4]) == 3;
    assert Assigns(cl) == 4;
    ClauseValuesLength(data, cl);
    ClauseValuesAt(data, cl, 4);
  }

  lemma ExpectedOfExample()
    ensures Expected(WebsiteExample) == [PasswordEncrypted, Strength, PlantType, GrowthStage, Website, UpdatedAt]
  {
    var data := WebsiteExample;
    ExampleFirstColumns();
    SelectNext(data, 6);
    SelectNext(data, 7);
    SelectNext(data, 8);
    SelectNext(data, 9);
    SelectNext(data, 10);
    assert ColumnOrder[..11] == ColumnOrder;
  }

  lemma ExampleFirstColumns()
    ensures Select(ColumnOrder[..6], WebsiteExample) == [PasswordEncrypted, Strength, PlantType, GrowthStage]
  {
    var data := WebsiteExample;
    assert ColumnOrder[..0] == [];
    SelectNext(data, 0);
    SelectNext(data, 1);
    SelectNext(data, 2);
    SelectNext(data, 3);
    SelectNext(data, 4);
    SelectNext(data, 5);
  }

  /** `growth_stage` climbs past 5 on every update with a new strength, while `updateLastUsed` caps it at 5. */
  function UpdatedGrowthStage(stage: int): (next: int)
    ensures next > stage
  {
    stage + 1
  }

  function LastUsedGrowthStage(stage: int): (next: int)
    ensures next <= 5 && (stage < 5 ==> next == stage + 1)
  {
    if stage + 1 < 5 then stage + 1 else 5
  }

  lemma GrowthStageUncapped(stage: int)
    requires stage >= 5
    ensures UpdatedGrowthStage(stage) > 5 && LastUsedGrowthStage(stage) == 5
  {
  }
}
