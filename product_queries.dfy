/** The dynamic UPDATE of `updateProduct`
    (src/controllers/productController.js): the SET clauses and bound values
    built step by step from the request body, and what running the resulting
    statement does to a row. SQL text is represented by its structure: a
    clause names its column and the number `k` of its `$k` placeholder. */
module ProductQueries {

  import opened Wrappers
  import opened JsValues
  import TextUtils

  /** The fields a body may update, in the order the builder visits them. */
  const AllowedFields: seq<string> :=
    ["name", "buy_price", "sell_price", "current_stock", "low_stock_limit", "tax_rate", "unit_type"]

  /** `column = $param`, or `column = CURRENT_TIMESTAMP`. */
  datatype SetClause = Assign(column: string, param: nat) | SetNow(column: string)

  /** `UPDATE products SET <sets> WHERE id = $idParam AND tenant_id = $tenantParam`. */
  datatype UpdateStatement = UpdateStatement(sets: seq<SetClause>, idParam: nat, tenantParam: nat)

  function Columns(sets: seq<SetClause>): (cols: seq<string>)
    ensures |cols| == |sets|
    ensures forall k :: 0 <= k < |sets| ==> cols[k] == sets[k].column
  {
    seq(|sets|, k requires 0 <= k < |sets| => sets[k].column)
  }

  /** A body field is present when reading it does not give `undefined`. */
  predicate Present(body: Record, field: string)
  {
    Get(body, field) != Undefined
  }

  /** The normalised name the builder binds: `normalizeText(req.body.name)`
      when that succeeds (the other case stops the builder). */
  function NormalizedName(body: Record): string
  {
    match TextUtils.NormalizeText(Get(body, "name"))
    case Ok(n) => n
    case Err(_) => ""
  }

  /** Whether the builder throws: `name` is present and `normalizeText`
      throws on it. */
  predicate BuilderThrows(body: Record)
  {
    Present(body, "name") && TextUtils.NormalizeText(Get(body, "name")).Err?
  }

  /** One visit of the builder to `field`: if the body has it, a clause and its
      value, and for `name` the `normalized_name` clause right after. */
  function Step(updates: seq<SetClause>, values: seq<JsValue>, body: Record, field: string)
    : (r: (seq<SetClause>, seq<JsValue>))
    ensures !Present(body, field) <==> r == (updates, values)
    ensures |updates| <= |r.0| && |r.0| - |updates| == |r.1| - |values|
    ensures updates <= r.0 && values <= r.1
  {
    if !Present(body, field) then (updates, values)
    else
      var u := updates + [Assign(field, |values| + 1)];
      var v := values + [Get(body, field)];
      if field == "name" then (u + [Assign("normalized_name", |v| + 1)], v + [Str(NormalizedName(body))])
      else (u, v)
  }

  /** The clauses and values once the builder has visited `fields`. */
  function Built(body: Record, fields: seq<string>): (r: (seq<SetClause>, seq<JsValue>))
    ensures |r.0| == |r.1|
  {
    if fields == [] then ([], [])
    else
      var prev := Built(body, fields[..|fields| - 1]);
      Step(prev.0, prev.1, body, fields[|fields| - 1])
  }

  /** Lines 86-105: the `forEach` over the allowed fields with its running
      `paramIndex`. `failure` is the exception `normalizeText` throws, which
      leaves the handler. */
  method BuildUpdates(body: Record)
    returns (updates: seq<SetClause>, values: seq<JsValue>, paramIndex: nat, failure: Option<string>)
    ensures failure.Some? <==> BuilderThrows(body)
    ensures failure.Some? ==> failure.value == TextUtils.ReplaceNotAFunction
    ensures failure.None? ==> (updates, values) == Built(body, AllowedFields) && paramIndex == |values| + 1
  {
    updates, values, paramIndex := [], [], 1;
    var i := 0;
    while i < |AllowedFields|
      invariant 0 <= i <= |AllowedFields|
      invariant (updates, values) == Built(body, AllowedFields[..i])
      invariant paramIndex == |values| + 1
      invariant i > 0 ==> !BuilderThrows(body)
    {
      var field := AllowedFields[i];
      assert AllowedFields[..i + 1][..i] == AllowedFields[..i];
      if Get(body, field) != Undefined {
        updates := updates + [Assign(field, paramIndex)];
        values := values + [Get(body, field)];
        paramIndex := paramIndex + 1;
        if field == "name" {
          var normalized := TextUtils.NormalizeText(Get(body, field));
          if normalized.Err? {
            failure := Some(normalized.error);
            return;
          }
          updates := updates + [Assign("normalized_name", paramIndex)];
          values := values + [Str(normalized.value)];
          paramIndex := paramIndex + 1;
        }
      }
      i := i + 1;
    }
    assert AllowedFields[..i] == AllowedFields;
    failure := None;
  }

  /** The columns one visited field contributes. */
  function Pick(body: Record, field: string): seq<string>
  {
    if !Present(body, field) then []
    else if field == "name" then ["name", "normalized_name"]
    else [field]
  }

  /** The intended columns, left to right: every present field in the order
      of `fields`, with `normalized_name` straight after `name`. */
  function ExpectedColumns(body: Record, fields: seq<string>): seq<string>
  {
    if fields == [] then [] else Pick(body, fields[0]) + ExpectedColumns(body, fields[1..])
  }

  lemma {:induction false} ExpectedColumnsSnoc(body: Record, fields: seq<string>)
    requires fields != []
    ensures ExpectedColumns(body, fields)
      == ExpectedColumns(body, fields[..|fields| - 1]) + Pick(body, fields[|fields| - 1])
  {
    if |fields| > 1 {
      assert fields[1..][..|fields[1..]| - 1] == fields[..|fields| - 1][1..];
      ExpectedColumnsSnoc(body, fields[1..]);
    }
  }

  /** Clauses numbered `$1`, `$2`, ... in order, one per value. */
  predicate Numbered(updates: seq<SetClause>, values: seq<JsValue>)
  {
    |updates| == |values| && forall k :: 0 <= k < |updates| ==> updates[k] == Assign(updates[k].column, k + 1)
  }

  /** One visit keeps clauses and values in step and adds the columns it
      picks. */
  lemma StepShape(updates: seq<SetClause>, values: seq<JsValue>, body: Record, field: string)
    requires Numbered(updates, values)
    ensures Numbered(Step(updates, values, body, field).0, Step(updates, values, body, field).1)
    ensures Columns(Step(updates, values, body, field).0) == Columns(updates) + Pick(body, field)
  {
    if Present(body, field) {
      var u := updates + [Assign(field, |values| + 1)];
      var v := values + [Get(body, field)];
      NumberedSnoc(updates, values, field, Get(body, field));
      ColumnsSnoc(updates, Assign(field, |values| + 1));
      if field == "name" {
        NumberedSnoc(u, v, "normalized_name", Str(NormalizedName(body)));
        ColumnsSnoc(u, Assign("normalized_name", |v| + 1));
      }
    }
  }

  lemma NumberedSnoc(updates: seq<SetClause>, values: seq<JsValue>, column: string, value: JsValue)
    requires Numbered(updates, values)
    ensures Numbered(updates + [Assign(column, |values| + 1)], values + [value])
  {
    var u := updates + [Assign(column, |values| + 1)];
    forall k | 0 <= k < |u| ensures u[k] == Assign(u[k].column, k + 1) {
      if k < |updates| {
        assert u[k] == updates[k];
      }
    }
  }

  lemma ColumnsSnoc(sets: seq<SetClause>, c: SetClause)
    ensures Columns(sets + [c]) == Columns(sets) + [c.column]
  {
    assert forall k :: 0 <= k < |sets| ==> (sets + [c])[k] == sets[k];
  }

  /** Placeholder `$k` of the k-th clause binds `values[k-1]`: the clauses
      and values stay in step, numbered from 1 without gaps. */
  lemma {:induction false} BuiltPlaceholders(body: Record, fields: seq<string>)
    ensures |Built(body, fields).0| == |Built(body, fields).1|
    ensures forall k :: 0 <= k < |Built(body, fields).0| ==>
      Built(body, fields).0[k] == Assign(Built(body, fields).0[k].column, k + 1)
  {
    if fields != [] {
      var prev := Built(body, fields[..|fields| - 1]);
      BuiltPlaceholders(body, fields[..|fields| - 1]);
      assert Numbered(prev.0, prev.1);
      StepShape(prev.0, prev.1, body, fields[|fields| - 1]);
      assert Built(body, fields) == Step(prev.0, prev.1, body, fields[|fields| - 1]);
    }
  }

  /** One clause per present field, in the order of `fields`, with
      `normalized_name` immediately after `name`; absent fields, and fields
      outside `fields`, get none. */
  lemma {:induction false} BuiltColumns(body: Record, fields: seq<string>)
    ensures Columns(Built(body, fields).0) == ExpectedColumns(body, fields)
  {
    if fields != [] {
      var prev := Built(body, fields[..|fields| - 1]);
      BuiltColumns(body, fields[..|fields| - 1]);
      BuiltPlaceholders(body, fields[..|fields| - 1]);
      ExpectedColumnsSnoc(body, fields);
      StepShape(prev.0, prev.1, body, fields[|fields| - 1]);
      assert Built(body, fields) == Step(prev.0, prev.1, body, fields[|fields| - 1]);
    }
  }

  /** Each bound value is the body's value of its column, except the one for
      `normalized_name`, which is the normalised name. */
  lemma {:induction false} BuiltValues(body: Record, fields: seq<string>)
    requires "normalized_name" !in fields
    ensures forall k :: 0 <= k < |Built(body, fields).0| && k < |Built(body, fields).1| ==>
      var c := Built(body, fields).0[k].column;
      if c == "normalized_name" then
        Built(body, fields).1[k] == Str(NormalizedName(body))
      else
        c in fields && Present(body, c) && Built(body, fields).1[k] == Get(body, c)
  {
    if fields != [] {
      var init := fields[..|fields| - 1];
      var f := fields[|fields| - 1];
      var prev := Built(body, init);
      var cur := Built(body, fields);
      BuiltValues(body, init);
      BuiltPlaceholders(body, init);
      assert f in fields;
      forall k | 0 <= k < |cur.0| && k < |cur.1|
        ensures var c := cur.0[k].column;
          if c == "normalized_name" then cur.1[k] == Str(NormalizedName(body))
          else c in fields && Present(body, c) && cur.1[k] == Get(body, c)
      {
        if k < |prev.0| {
          assert cur.0[k] == prev.0[k] && cur.1[k] == prev.1[k];
          var c := cur.0[k].column;
          if c != "normalized_name" {
            var j :| 0 <= j < |init| && init[j] == c;
            assert fields[j] == c;
          }
        } else if k == |prev.0| {
          assert cur.0[k].column == f && cur.1[k] == Get(body, f);
        } else {
          assert f == "name" && cur.0[k].column == "normalized_name";
        }
      }
    }
  }

  /** Membership in the intended columns. */
  lemma {:induction false} ExpectedColumnsHas(body: Record, fields: seq<string>, c: string)
    requires "normalized_name" !in fields
    ensures c in ExpectedColumns(body, fields) <==>
      (c in fields && Present(body, c)) || (c == "normalized_name" && "name" in fields && Present(body, "name"))
  {
    if fields != [] {
      ExpectedColumnsHas(body, fields[1..], c);
      assert fields == [fields[0]] + fields[1..];
    }
  }

  predicate Distinct(cols: seq<string>)
  {
    forall i, j :: 0 <= i < j < |cols| ==> cols[i] != cols[j]
  }

  /** With distinct fields, no column is set twice. */
  lemma {:induction false} ExpectedColumnsDistinct(body: Record, fields: seq<string>)
    requires "normalized_name" !in fields && Distinct(fields)
    ensures Distinct(ExpectedColumns(body, fields))
  {
    if fields != [] {
      var rest := ExpectedColumns(body, fields[1..]);
      ExpectedColumnsDistinct(body, fields[1..]);
      var p := Pick(body, fields[0]);
      forall c | c in p ensures c !in rest {
        ExpectedColumnsHas(body, fields[1..], c);
        assert fields[0] !in fields[1..] by {
          forall j | 0 <= j < |fields[1..]| ensures fields[1..][j] != fields[0] {
            assert fields[1..][j] == fields[j + 1];
          }
        }
        assert "name" in fields[1..] ==> fields[0] != "name" by {
          if "name" in fields[1..] {
            var j :| 0 <= j < |fields[1..]| && fields[1..][j] == "name";
            assert fields[j + 1] == "name";
          }
        }
      }
      var all := p + rest;
      forall i, j | 0 <= i < j < |all| ensures all[i] != all[j] {
        if j < |p| {
        } else if i >= |p| {
          assert all[i] == rest[i - |p|] && all[j] == rest[j - |p|];
        } else {
          assert all[i] in p && all[j] == rest[j - |p|];
        }
      }
    }
  }

  /** The value a clause writes. */
  function ClauseValue(c: SetClause, values: seq<JsValue>, now: JsValue): JsValue
    requires c.Assign? ==> 1 <= c.param <= |values|
  {
    match c
    case Assign(_, k) => values[k - 1]
    case SetNow(_) => now
  }

  /** Every placeholder of the SET list has a value. */
  predicate Bound(sets: seq<SetClause>, values: seq<JsValue>)
  {
    forall k :: 0 <= k < |sets| && sets[k].Assign? ==> 1 <= sets[k].param <= |values|
  }

  /** The store running `SET <sets>` on one row. The right-hand sides do not
      read the row, so assigning the clauses one after the other is the same
      as assigning them together. */
  function ApplySets(row: Record, sets: seq<SetClause>, values: seq<JsValue>, now: JsValue): (r: Record)
    requires Bound(sets, values)
    ensures row.Keys <= r.Keys
    ensures forall k :: 0 <= k < |sets| ==> sets[k].column in r
    decreases |sets|
  {
    if sets == [] then row
    else ApplySets(row[sets[0].column := ClauseValue(sets[0], values, now)], sets[1..], values, now)
  }

  /** What `SET` does to one column when no column is set twice: the row has
      every column it had and every column set; a set column holds its
      clause's value and every other column keeps its value. */
  lemma {:induction false} ApplySetsAt(row: Record, sets: seq<SetClause>, values: seq<JsValue>, now: JsValue, c: string)
    requires Bound(sets, values) && Distinct(Columns(sets))
    ensures c in ApplySets(row, sets, values, now) <==> c in row || c in Columns(sets)
    ensures forall k :: 0 <= k < |sets| && sets[k].column == c ==>
      ApplySets(row, sets, values, now)[c] == ClauseValue(sets[k], values, now)
    ensures c in row && c !in Columns(sets) ==> ApplySets(row, sets, values, now)[c] == row[c]
    decreases |sets|
  {
    if sets != [] {
      var row' := row[sets[0].column := ClauseValue(sets[0], values, now)];
      var tail := sets[1..];
      assert Columns(tail) == Columns(sets)[1..];
      assert Bound(tail, values);
      ApplySetsAt(row', tail, values, now, c);
      assert Columns(sets) == [sets[0].column] + Columns(tail);
      if c == sets[0].column {
        assert c !in Columns(tail);
      }
    }
  }

  /** Lines 119-143, once the row exists: the built clauses, then
      `image_url` when a file was uploaded, then `updated_at`. */
  function UpdateSets(body: Record, image: Option<string>): (r: seq<SetClause>)
    ensures |r| >= 1 && r[|r| - 1] == SetNow("updated_at")
    ensures image.Some? ==> |r| >= 2 && r[|r| - 2].column == "image_url"
  {
    var b := Built(body, AllowedFields);
    b.0 + (if image.Some? then [Assign("image_url", |b.1| + 1)] else []) + [SetNow("updated_at")]
  }

  /** The bound values: the built ones, the uploaded path, then `id` and
      `tenant_id` for the WHERE clause. */
  function UpdateValues(body: Record, image: Option<string>, id: string, tenant: string): (r: seq<JsValue>)
    ensures |r| >= 2 && r[|r| - 2] == Str(id) && r[|r| - 1] == Str(tenant)
    ensures image.Some? ==> |r| >= 3 && r[|r| - 3] == Str(image.value)
  {
    Built(body, AllowedFields).1 + (if image.Some? then [Str(image.value)] else []) + [Str(id), Str(tenant)]
  }

  /** The statement with its WHERE placeholders: `paramIndex` and the one
      after it. */
  function UpdateQuery(body: Record, image: Option<string>): (q: UpdateStatement)
    ensures q.tenantParam == q.idParam + 1 && q.tenantParam == |UpdateValues(body, image, "", "")|
  {
    var p := |Built(body, AllowedFields).1| + (if image.Some? then 1 else 0) + 1;
    UpdateStatement(UpdateSets(body, image), p, p + 1)
  }

  lemma AllowedFieldsShape()
    ensures Distinct(AllowedFields)
    ensures "normalized_name" !in AllowedFields
    ensures "image_url" !in AllowedFields && "updated_at" !in AllowedFields
    ensures "id" !in AllowedFields && "tenant_id" !in AllowedFields
  {
  }

  /** The intended columns are allowed fields and `normalized_name`. */
  lemma ExpectedColumnsOfAllowed(body: Record, c: string)
    ensures c in ExpectedColumns(body, AllowedFields) <==>
      (c in AllowedFields && Present(body, c)) || (c == "normalized_name" && Present(body, "name"))
  {
    AllowedFieldsShape();
    ExpectedColumnsHas(body, AllowedFields, c);
  }

  /** The placeholders of the statement line up with its values: SET clause
      `k` (from 0) uses `$k+1`, `updated_at` comes last and uses none, the
      WHERE clause binds `id` and `tenant_id` to the last two values, and
      no column is set twice. */
  lemma UpdateBindings(body: Record, image: Option<string>, id: string, tenant: string)
    ensures var q := UpdateQuery(body, image); var vals := UpdateValues(body, image, id, tenant);
      && q.sets == UpdateSets(body, image)
      && |q.sets| >= 1 && q.sets[|q.sets| - 1] == SetNow("updated_at")
      && (forall k :: 0 <= k < |q.sets| - 1 ==> q.sets[k] == Assign(q.sets[k].column, k + 1))
      && q.idParam == |vals| - 1 && q.tenantParam == |vals|
      && vals[q.idParam - 1] == Str(id) && vals[q.tenantParam - 1] == Str(tenant)
      && Bound(q.sets, vals)
      && (forall k :: 0 <= k < |q.sets| && q.sets[k].Assign? ==> q.sets[k].param < q.idParam)
      && Distinct(Columns(q.sets))
  {
    BuiltPlaceholders(body, AllowedFields);
    UpdateColumnsDistinct(body, image);
  }

  /** No column of the statement's SET list is set twice. */
  lemma UpdateColumnsDistinct(body: Record, image: Option<string>)
    ensures Distinct(Columns(UpdateSets(body, image)))
  {
    var b := Built(body, AllowedFields);
    BuiltColumns(body, AllowedFields);
    AllowedFieldsShape();
    ExpectedColumnsDistinct(body, AllowedFields);
    var sets := UpdateSets(body, image);
    var cols := Columns(sets);
    var ex := Columns(b.0);
    forall i, j | 0 <= i < j < |cols| ensures cols[i] != cols[j] {
      if j < |b.0| {
        assert cols[i] == ex[i] && cols[j] == ex[j];
      } else if i < |b.0| {
        assert cols[i] == ex[i];
        ExpectedColumnsOfAllowed(body, cols[i]);
      }
    }
  }

  /** Which columns the update writes: the present allowed fields,
      `normalized_name` with `name`, `image_url` with an upload, and
      `updated_at` always. */
  predicate Patches(body: Record, image: Option<string>, c: string)
  {
    (c in AllowedFields && Present(body, c))
    || (c == "normalized_name" && Present(body, "name"))
    || (c == "image_url" && image.Some?)
    || c == "updated_at"
  }

  /** The value a column holds after the update. */
  function PatchedValue(row: Record, body: Record, image: Option<string>, now: JsValue, c: string): JsValue
  {
    if c in AllowedFields && Present(body, c) then Get(body, c)
    else if c == "normalized_name" && Present(body, "name") then Str(NormalizedName(body))
    else if c == "image_url" && image.Some? then Str(image.value)
    else if c == "updated_at" then now
    else Get(row, c)
  }

  /** The row after the update, written as a patch: independent of how the
      statement is built. */
  function Patched(row: Record, body: Record, image: Option<string>, now: JsValue): (r: Record)
    ensures forall c :: c in r <==> c in row || Patches(body, image, c)
    ensures forall c :: c in r ==> r[c] == PatchedValue(row, body, image, now, c)
  {
    var written := set c | c in AllowedFields + ["normalized_name", "image_url", "updated_at"] && Patches(body, image, c);
    map c | c in row.Keys + written :: PatchedValue(row, body, image, now, c)
  }

  /** The clause at a position of the statement, with its value. */
  lemma ClauseAtPosition(body: Record, image: Option<string>, id: string, tenant: string, now: JsValue, k: nat)
    requires k < |UpdateSets(body, image)|
    requires Bound(UpdateSets(body, image), UpdateValues(body, image, id, tenant))
    ensures var c := UpdateSets(body, image)[k].column;
      Patches(body, image, c)
      && ClauseValue(UpdateSets(body, image)[k], UpdateValues(body, image, id, tenant), now)
         == PatchedValue(map[], body, image, now, c)
  {
    var b := Built(body, AllowedFields);
    var sets := UpdateSets(body, image);
    var vals := UpdateValues(body, image, id, tenant);
    BuiltPlaceholders(body, AllowedFields);
    AllowedFieldsShape();
    if k < |b.0| {
      BuiltValues(body, AllowedFields);
      BuiltColumns(body, AllowedFields);
      ExpectedColumnsOfAllowed(body, b.0[k].column);
      assert Columns(b.0)[k] == b.0[k].column;
      assert sets[k] == b.0[k];
      assert vals[k] == b.1[k];
    } else if image.Some? && k == |b.0| {
      assert sets[k] == Assign("image_url", |b.1| + 1);
      assert vals[|b.1|] == Str(image.value);
    } else {
      assert sets[k] == SetNow("updated_at");
    }
  }

  /** The statement sets exactly the columns the patch writes. */
  lemma SetColumns(body: Record, image: Option<string>, c: string)
    ensures c in Columns(UpdateSets(body, image)) <==> Patches(body, image, c)
  {
    var b := Built(body, AllowedFields);
    BuiltColumns(body, AllowedFields);
    ExpectedColumnsOfAllowed(body, c);
    var cols := Columns(UpdateSets(body, image));
    assert cols == Columns(b.0) + (if image.Some? then ["image_url"] else []) + ["updated_at"];
    AllowedFieldsShape();
  }

  /** One column of the statement's effect. */
  lemma UpdateMeaningAt(row: Record, body: Record, image: Option<string>, id: string, tenant: string, now: JsValue, c: string)
    requires Bound(UpdateSets(body, image), UpdateValues(body, image, id, tenant))
    requires Distinct(Columns(UpdateSets(body, image)))
    ensures var r := ApplySets(row, UpdateSets(body, image), UpdateValues(body, image, id, tenant), now);
      (c in r <==> c in row || Patches(body, image, c))
      && (c in r ==> r[c] == PatchedValue(row, body, image, now, c))
  {
    var sets := UpdateSets(body, image);
    var vals := UpdateValues(body, image, id, tenant);
    ApplySetsAt(row, sets, vals, now, c);
    SetColumns(body, image, c);
    var cols := Columns(sets);
    if c in cols {
      var k :| 0 <= k < |cols| && cols[k] == c;
      ClauseAtPosition(body, image, id, tenant, now, k);
    }
  }

  /** Running the statement on the row is the patch: every present allowed
      field takes the body's value, `normalized_name` the normalised name,
      `image_url` the uploaded path, `updated_at` the current time, and every
      other column keeps its value. */
  lemma UpdateMeaning(row: Record, body: Record, image: Option<string>, id: string, tenant: string, now: JsValue)
    ensures Bound(UpdateSets(body, image), UpdateValues(body, image, id, tenant))
    ensures ApplySets(row, UpdateSets(body, image), UpdateValues(body, image, id, tenant), now)
      == Patched(row, body, image, now)
  {
    UpdateBindings(body, image, id, tenant);
    var r := ApplySets(row, UpdateSets(body, image), UpdateValues(body, image, id, tenant), now);
    var p := Patched(row, body, image, now);
    forall c ensures (c in r <==> c in p) && (c in r ==> r[c] == p[c]) {
      UpdateMeaningAt(row, body, image, id, tenant, now, c);
    }
    SameMaps(r, p);
  }

  lemma SameMaps(r: Record, p: Record)
    requires forall c :: (c in r <==> c in p) && (c in r ==> r[c] == p[c])
    ensures r == p
  {
    assert r.Keys == p.Keys;
  }

  /** The update never writes the identity columns, so `id` and `tenant_id`
      keep their values. */
  lemma PatchedKeepsIdentity(row: Record, body: Record, image: Option<string>, now: JsValue)
    ensures Get(Patched(row, body, image, now), "id") == Get(row, "id")
    ensures Get(Patched(row, body, image, now), "tenant_id") == Get(row, "tenant_id")
  {
    AllowedFieldsShape();
  }
}
