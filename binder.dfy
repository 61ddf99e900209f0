/** The Magento model binder.

    A binding record joins a Magento external id and a Magento backend to one
    record of a normal model (its `erp_id`). `MagentoModelBinder` holds the
    backend it works for and the table of binding records, and translates in
    both directions: external id to binding or normal record (`ToOpenerp`),
    binding or normal record to external id (`ToBackend`); it writes the link
    (`Bind`) and follows a binding to its normal record (`UnwrapBinding`,
    `UnwrapModel`). Every lookup filters the whole table, archived rows
    included, and then branches on the number of rows found. */
module Binder {
  import opened Search

  datatype Option<T> = None | Some(value: T)

  /** A Python value handed to the binder as an external id. */
  datatype PyScalar = PyNone | PyBool(b: bool) | PyInt(i: int) | PyStr(s: string)

  /** Python truthiness. */
  predicate Truthy(v: PyScalar)
  {
    match v
    case PyNone => false
    case PyBool(b) => b
    case PyInt(i) => i != 0
    case PyStr(s) => s != ""
  }

  /** Python's `v == 0`. It holds for False too, bool being a subclass of int. */
  predicate EqualsZero(v: PyScalar)
  {
    v == PyInt(0) || v == PyBool(false)
  }

  // ---------------------------------------------------------------------
  // Python's str() on integers: decimal digits with a leading '-' when
  // negative.

  predicate IsDigits(s: string)
  {
    forall k :: 0 <= k < |s| ==> '0' <= s[k] <= '9'
  }

  function DigitChar(d: nat): (c: char)
    requires d < 10
    ensures '0' <= c <= '9' && c as int - '0' as int == d
  {
    ('0' as int + d) as char
  }

  /** `str(n)`: a canonical numeral, which starts with '0' only for zero
      itself, so no two renderings of one value differ. */
  function NatToDecimal(n: nat): (r: string)
    ensures r != [] && IsDigits(r)
    ensures r[0] == '0' <==> n == 0
    ensures |r| > 1 ==> r[0] != '0'
    decreases n
  {
    if n < 10 then [DigitChar(n)] else NatToDecimal(n / 10) + [DigitChar(n % 10)]
  }

  /** The value of a string of decimal digits. */
  function DecimalToNat(s: string): nat
    requires IsDigits(s)
  {
    if s == [] then 0
    else DecimalToNat(s[..|s| - 1]) * 10 + (s[|s| - 1] as int - '0' as int)
  }

  function IntToDecimal(i: int): string
  {
    if i < 0 then "-" + NatToDecimal(-i) else NatToDecimal(i)
  }

  /** Python's int() on what IntToDecimal produces. */
  function DecimalToInt(s: string): int
    requires s != [] && (if s[0] == '-' then IsDigits(s[1..]) else IsDigits(s))
  {
    if s[0] == '-' then -(DecimalToNat(s[1..]) as int) else DecimalToNat(s)
  }

  lemma {:induction false} NatDecimalRoundTrip(n: nat)
    ensures DecimalToNat(NatToDecimal(n)) == n
    decreases n
  {
    if n >= 10 {
      var s := NatToDecimal(n);
      assert s[..|s| - 1] == NatToDecimal(n / 10);
      NatDecimalRoundTrip(n / 10);
    }
  }

  /** `int(str(i)) == i`. */
  lemma IntDecimalRoundTrip(i: int)
    ensures var s := IntToDecimal(i);
            s != [] && (if s[0] == '-' then IsDigits(s[1..]) else IsDigits(s))
            && DecimalToInt(s) == i
  {
    if i < 0 {
      var s := IntToDecimal(i);
      assert s[1..] == NatToDecimal(-i);
      NatDecimalRoundTrip(-i);
    } else {
      NatDecimalRoundTrip(i);
    }
  }

  /** Python's str(v). */
  function Str(v: PyScalar): string
  {
    match v
    case PyNone => "None"
    case PyBool(b) => if b then "True" else "False"
    case PyInt(i) => IntToDecimal(i)
    case PyStr(s) => s
  }

  /** Two different integer external ids never share a stored key. */
  lemma IntKeysDistinct(i: int, j: int)
    requires i != j
    ensures Str(PyInt(i)) != Str(PyInt(j))
  {
    IntDecimalRoundTrip(i);
    IntDecimalRoundTrip(j);
  }

  // ---------------------------------------------------------------------
  // The external-id check of `bind`.

  /** The check as the Python `bind` writes it (models/unit/binder.py:124):
      `external_id or external_id == 0`. */
  predicate AssertedExternalIdAsWritten(v: PyScalar)
  {
    Truthy(v) || EqualsZero(v)
  }

  /** The check that the comment above that line of the Python `bind`
      (models/unit/binder.py:122-123) asks for: falsy values are refused,
      except the integer 0, which is a valid Magento id. */
  predicate ExternalIdAccepted(v: PyScalar)
  {
    Truthy(v) || v == PyInt(0)
  }

  /** The check as written lets False through, which the comment beside it
      says must be refused; bind(False, id) would store the id "False". */
  lemma AsWrittenAcceptsFalse()
    ensures AssertedExternalIdAsWritten(PyBool(false))
    ensures !ExternalIdAccepted(PyBool(false))
    ensures Str(PyBool(false)) == "False"
  {
  }

  /** The two checks differ on False alone, for every input. */
  lemma AsWrittenDiffersOnlyOnFalse(v: PyScalar)
    ensures AssertedExternalIdAsWritten(v) <==> ExternalIdAccepted(v) || v == PyBool(false)
  {
  }

  /** The corrected check refuses exactly None, False and the empty string,
      and accepts 0. */
  lemma ExternalIdAcceptedExactly(v: PyScalar)
    ensures ExternalIdAccepted(v) <==> v != PyNone && v != PyBool(false) && v != PyStr("")
    ensures ExternalIdAccepted(PyInt(0))
  {
  }

  // ---------------------------------------------------------------------
  // The binding table.

  /** A row of a binding model such as `magento.product.product`. An unset
      `magento_id`, `erp_id` or `sync_date` is None. No operation reads
      `active`, and that is the point: every search of the binder runs with
      `active_test=False`, so archived bindings are found like the others. */
  datatype Binding = Binding(
    id: int,
    magentoId: Option<string>,
    erpId: Option<int>,
    backendId: int,
    syncDate: Option<string>,
    active: bool)

  /** Database ids are positive and the table is keyed by them. */
  ghost predicate ValidRows(rows: seq<Binding>)
  {
    && (forall i :: 0 <= i < |rows| ==> rows[i].id > 0)
    && (forall i, j :: 0 <= i < j < |rows| ==> rows[i].id != rows[j].id)
  }

  /** The position of the row with database id `id`, as `browse(id)` reaches it. */
  function FindId(rows: seq<Binding>, id: int): (k: Option<nat>)
    ensures k.None? <==> forall i :: 0 <= i < |rows| ==> rows[i].id != id
    ensures k.Some? ==> k.value < |rows| && rows[k.value].id == id
  {
    if rows == [] then None
    else if rows[0].id == id then Some(0)
    else match FindId(rows[1..], id)
      case None => None
      case Some(k) => Some(k + 1)
  }

  lemma FindIdUnique(rows: seq<Binding>, id: int, i: int)
    requires ValidRows(rows) && 0 <= i < |rows| && rows[i].id == id
    ensures FindId(rows, id) == Some(i)
  {
    assert FindId(rows, id).Some?;
    var k := FindId(rows, id).value;
    assert rows[k].id == rows[i].id;
  }

  /** The domain of `to_openerp`: this external id under this backend. */
  function ExternalKey(externalId: string, backendId: int): Binding -> bool
  {
    (b: Binding) => b.magentoId == Some(externalId) && b.backendId == backendId
  }

  /** The domain of `to_backend(wrap=True)`: bindings of this normal record
      under this backend. The leaf `('erp_id', '=', False)` (or `None`)
      selects the bindings whose `erp_id` is unset, so a record id is an
      `Option<int>` here, None standing for False and None. */
  function WrapsRecord(recordId: Option<int>, backendId: int): Binding -> bool
  {
    (b: Binding) => b.erpId == recordId && b.backendId == backendId
  }

  /** A record id `browse` maps to the empty recordset: False, None or 0. */
  predicate FalsyId(recordId: Option<int>)
  {
    recordId == None || recordId == Some(0)
  }

  // ---------------------------------------------------------------------
  // Answers and errors.

  /** What a binder operation hands back: a Python scalar (None, False, an
      id, an external id), or a recordset of the binding model or of the
      normal model with the given ids. */
  datatype Answer =
    | Scalar(v: PyScalar)
    | BindingRecords(ids: seq<int>)
    | NormalRecords(ids: seq<int>)

  /** Reading `magento_id`: an unset char field reads as False. */
  function MagentoIdValue(m: Option<string>): Answer
  {
    match m
    case None => Scalar(PyBool(false))
    case Some(s) => Scalar(PyStr(s))
  }

  /** Reading `erp_id`: the normal record as a recordset (`browse`) or its
      id, which is False for an unset field. */
  function NormalAnswer(erpId: Option<int>, browse: bool): Answer
  {
    match erpId
    case None => if browse then NormalRecords([]) else Scalar(PyBool(false))
    case Some(id) => if browse then NormalRecords([id]) else Scalar(PyInt(id))
  }

  datatype Error =
    | AssertionFailed            // a Python `assert` in the binder fails
    | ExpectedSingleton          // `ensure_one()` on several records
    | MissingRecord(id: int)     // reading or writing an id absent from the table
    | NoErpIdField(model: string) // the ValueError of `unwrap_model`
    | MissingField(field: string) // a field the binding model lacks, read
                                  // as an attribute or named in a domain

  datatype Result<T> = Ok(value: T) | Fail(error: Error)

  datatype Outcome = Pass | Raise(error: Error)

  /** The storage of one binding model: its rows, read in storage order. */
  class BindingTable {
    var rows: seq<Binding>

    ghost predicate Valid()
      reads this
    {
      ValidRows(rows)
    }

    constructor (rows: seq<Binding>)
      requires ValidRows(rows)
      ensures this.rows == rows && Valid()
    {
      this.rows := rows;
    }
  }

  class MagentoModelBinder {
    /** The binding model's name, e.g. `magento.product.product`. */
    const modelName: string
    /** The binding model's field metadata: field name to `comodel_name`
        (None for a field that is not relational). Whether `erp_id` is
        among them decides whether the operations that read it can run. */
    const fields: map<string, Option<string>>
    /** The id of the Magento backend this binder works for. */
    const backendId: int
    const table: BindingTable

    constructor (modelName: string, fields: map<string, Option<string>>, backendId: int, table: BindingTable)
      ensures this.modelName == modelName && this.fields == fields
      ensures this.backendId == backendId && this.table == table
    {
      this.modelName := modelName;
      this.fields := fields;
      this.backendId := backendId;
      this.table := table;
    }

    /** `to_openerp(external_id, unwrap, browse)`: the binding for an external
        id under this backend, archived bindings included. No match gives
        None or an empty recordset, several matches fail the assertion, and
        a single match gives its normal record (`unwrap`) or itself, as a
        record (`browse`) or an id. Unwrapping that match on a model without
        an `erp_id` field fails. */
    function ToOpenerp(externalId: PyScalar, unwrap: bool, browse: bool): (r: Result<Answer>)
      reads table
      ensures NoneSatisfy(table.rows, ExternalKey(Str(externalId), backendId))
              <==> r == Ok(if browse then BindingRecords([]) else Scalar(PyNone))
      ensures SeveralSatisfy(table.rows, ExternalKey(Str(externalId), backendId))
              <==> r == Fail(AssertionFailed)
      ensures forall i :: OnlyAt(table.rows, ExternalKey(Str(externalId), backendId), i) ==>
                r == (if unwrap && "erp_id" !in fields then Fail(MissingField("erp_id"))
                      else if unwrap then Ok(NormalAnswer(table.rows[i].erpId, browse))
                      else if browse then Ok(BindingRecords([table.rows[i].id]))
                      else Ok(Scalar(PyInt(table.rows[i].id))))
    {
      var key := ExternalKey(Str(externalId), backendId);
      var bindings := Filter(table.rows, key);
      FilterCases(table.rows, key);
      if bindings == [] then
        Ok(if browse then BindingRecords([]) else Scalar(PyNone))
      else if |bindings| != 1 then
        Fail(AssertionFailed)
      else if unwrap then
        if "erp_id" !in fields then Fail(MissingField("erp_id"))
        else Ok(NormalAnswer(bindings[0].erpId, browse))
      else
        Ok(if browse then BindingRecords([bindings[0].id]) else Scalar(PyInt(bindings[0].id)))
    }

    /** `to_backend(record_id, wrap)`. With `wrap`, `recordId` is a normal
        record: its binding under this backend (archived ones included)
        gives the external id, no binding gives None, several fail
        `ensure_one`; on a model without an `erp_id` field the search
        itself fails, and a None `recordId` (False or None in Python)
        selects the bindings with no `erp_id`. Without `wrap`, `recordId`
        is a binding: a falsy id
        fails the assertion, an id absent from the table fails on reading
        the record, and otherwise its `magento_id` is returned. */
    function ToBackend(recordId: Option<int>, wrap: bool): (r: Result<Answer>)
      requires table.Valid()
      reads table
      ensures wrap && "erp_id" !in fields ==> r == Fail(MissingField("erp_id"))
      ensures wrap && "erp_id" in fields ==>
                (NoneSatisfy(table.rows, WrapsRecord(recordId, backendId)) <==> r == Ok(Scalar(PyNone)))
      ensures wrap && "erp_id" in fields ==>
                (SeveralSatisfy(table.rows, WrapsRecord(recordId, backendId)) <==> r == Fail(ExpectedSingleton))
      ensures wrap && "erp_id" in fields ==> forall i :: OnlyAt(table.rows, WrapsRecord(recordId, backendId), i) ==>
                         r == Ok(MagentoIdValue(table.rows[i].magentoId))
      ensures !wrap ==> (r == Fail(AssertionFailed) <==> FalsyId(recordId))
      ensures !wrap && recordId.Some? ==>
                (r == Fail(MissingRecord(recordId.value))
                 <==> recordId.value != 0
                      && forall i :: 0 <= i < |table.rows| ==> table.rows[i].id != recordId.value)
      ensures !wrap ==> forall i :: 0 <= i < |table.rows| && Some(table.rows[i].id) == recordId ==>
                          r == Ok(MagentoIdValue(table.rows[i].magentoId))
    {
      if wrap then
        if "erp_id" !in fields then Fail(MissingField("erp_id"))
        else
        var key := WrapsRecord(recordId, backendId);
        var binding := Filter(table.rows, key);
        FilterCases(table.rows, key);
        if binding == [] then Ok(Scalar(PyNone))
        else if |binding| != 1 then Fail(ExpectedSingleton)
        else Ok(MagentoIdValue(binding[0].magentoId))
      else if FalsyId(recordId) then
        Fail(AssertionFailed)
      else
        var id := recordId.value;
        match FindId(table.rows, id)
        case None => Fail(MissingRecord(id))
        case Some(k) =>
          assert forall i :: 0 <= i < |table.rows| && table.rows[i].id == id ==> i == k by {
            forall i | 0 <= i < |table.rows| && table.rows[i].id == id
              ensures i == k
            {
              FindIdUnique(table.rows, id, i);
            }
          }
          Ok(MagentoIdValue(table.rows[k].magentoId))
    }

    /** `bind(external_id, binding_id)`, at time `now`. The external id must
        be accepted (truthy, or the integer 0) and the binding id truthy;
        otherwise the assertion fails and nothing is written. This is the
        corrected check `ExternalIdAccepted`; the Python `bind` tests
        `AssertedExternalIdAsWritten`, which also lets False through
        (`AsWrittenDiffersOnlyOnFalse`). A binding id
        absent from the table fails the write. Otherwise that one binding's
        `magento_id` becomes str(external_id) and its `sync_date` becomes
        `now`; no other field and no other binding changes. If the binding
        belongs to this backend and no other binding of this backend already
        carries that external id, a following `to_openerp` finds it. */
    method Bind(externalId: PyScalar, bindingId: int, now: string) returns (r: Outcome)
      requires table.Valid()
      modifies table
      ensures table.Valid()
      ensures r == Raise(AssertionFailed) <==> !(ExternalIdAccepted(externalId) && bindingId != 0)
      ensures r == Raise(MissingRecord(bindingId))
              <==> && ExternalIdAccepted(externalId) && bindingId != 0
                   && forall i :: 0 <= i < |old(table.rows)| ==> old(table.rows)[i].id != bindingId
      ensures r == Pass || r == Raise(AssertionFailed) || r == Raise(MissingRecord(bindingId))
      ensures r.Raise? ==> table.rows == old(table.rows)
      ensures |table.rows| == |old(table.rows)|
      ensures r.Pass? ==> forall i :: 0 <= i < |table.rows| ==>
                table.rows[i] == (if old(table.rows)[i].id == bindingId
                                  then old(table.rows)[i].(magentoId := Some(Str(externalId)), syncDate := Some(now))
                                  else old(table.rows)[i])
      ensures r.Pass? ==> forall i :: 0 <= i < |old(table.rows)| && old(table.rows)[i].id == bindingId
                            && old(table.rows)[i].backendId == backendId
                            && (forall j :: 0 <= j < |old(table.rows)| && j != i ==>
                                  !ExternalKey(Str(externalId), backendId)(old(table.rows)[j]))
                            ==> && ToOpenerp(externalId, false, false) == Ok(Scalar(PyInt(bindingId)))
                                && ToOpenerp(externalId, true, false)
                                   == (if "erp_id" in fields then Ok(NormalAnswer(old(table.rows)[i].erpId, false))
                                       else Fail(MissingField("erp_id")))
    {
      if !(ExternalIdAccepted(externalId) && bindingId != 0) {
        return Raise(AssertionFailed);
      }
      var k := FindId(table.rows, bindingId);
      if k.None? {
        return Raise(MissingRecord(bindingId));
      }
      var before := table.rows;
      var updated := before[k.value].(magentoId := Some(Str(externalId)), syncDate := Some(now));
      table.rows := before[k.value := updated];
      forall i | 0 <= i < |before| && before[i].id == bindingId
        ensures i == k.value
      {
        FindIdUnique(before, bindingId, i);
      }
      var key := ExternalKey(Str(externalId), backendId);
      forall i | 0 <= i < |before| && before[i].id == bindingId && before[i].backendId == backendId
                 && (forall j :: 0 <= j < |before| && j != i ==> !key(before[j]))
        ensures OnlyAt(table.rows, key, i)
      {
        assert i == k.value;
        assert key(table.rows[i]);
      }
      return Pass;
    }

    /** `unwrap_binding(binding_id, browse)`: the normal record a binding
        wraps, as a record or as an id. A falsy id gives an empty recordset
        or False; an id absent from the table fails on reading. On a model
        without an `erp_id` field the attribute itself is missing. */
    function UnwrapBinding(bindingId: int, browse: bool): (r: Result<Answer>)
      requires table.Valid()
      reads table
      ensures "erp_id" !in fields ==> r == Fail(MissingField("erp_id"))
      ensures "erp_id" in fields && bindingId == 0 ==> r == Ok(NormalAnswer(None, browse))
      ensures "erp_id" in fields && bindingId != 0
              && (forall i :: 0 <= i < |table.rows| ==> table.rows[i].id != bindingId)
              ==> r == Fail(MissingRecord(bindingId))
      ensures "erp_id" in fields ==> forall i :: 0 <= i < |table.rows| && table.rows[i].id == bindingId ==>
                r == Ok(NormalAnswer(table.rows[i].erpId, browse))
    {
      if "erp_id" !in fields then
        Fail(MissingField("erp_id"))
      else if bindingId == 0 then
        Ok(NormalAnswer(None, browse))
      else
        match FindId(table.rows, bindingId)
        case None => Fail(MissingRecord(bindingId))
        case Some(k) =>
          assert forall i :: 0 <= i < |table.rows| && table.rows[i].id == bindingId ==> i == k by {
            forall i | 0 <= i < |table.rows| && table.rows[i].id == bindingId
              ensures i == k
            {
              FindIdUnique(table.rows, bindingId, i);
            }
          }
          Ok(NormalAnswer(table.rows[k].erpId, browse))
    }

    /** `unwrap_model()`: the name of the model the `erp_id` field points
        to; a model without an `erp_id` field raises ValueError. */
    function UnwrapModel(): (r: Result<Option<string>>)
      ensures r.Fail? <==> "erp_id" !in fields
      ensures r.Fail? ==> r.error == NoErpIdField(modelName)
      ensures r.Ok? ==> "erp_id" in fields && r.value == fields["erp_id"]
    {
      if "erp_id" in fields then Ok(fields["erp_id"]) else Fail(NoErpIdField(modelName))
    }

    /** A binder set up for a model without an `erp_id` field: `unwrap_model`
        reports it, and every operation that reads `erp_id` fails on it. */
    lemma MisconfiguredModelFails(recordId: Option<int>, bindingId: int, browse: bool)
      requires table.Valid()
      ensures UnwrapModel().Fail? <==> UnwrapBinding(bindingId, browse) == Fail(MissingField("erp_id"))
      ensures UnwrapModel().Fail? <==> ToBackend(recordId, true) == Fail(MissingField("erp_id"))
    {
      if "erp_id" in fields {
        match FindId(table.rows, bindingId)
        case None =>
        case Some(k) =>
          assert UnwrapBinding(bindingId, browse) == Ok(NormalAnswer(table.rows[k].erpId, browse));
      }
    }

    /** Looking up an external id without unwrapping and then unwrapping the
        binding found gives what the unwrapping lookup gives. */
    lemma UnwrapAfterLookup(externalId: PyScalar, bindingId: int, browse: bool)
      requires table.Valid()
      requires ToOpenerp(externalId, false, false) == Ok(Scalar(PyInt(bindingId)))
      ensures UnwrapBinding(bindingId, browse) == ToOpenerp(externalId, true, browse)
    {
      var key := ExternalKey(Str(externalId), backendId);
      ExactlyOne(table.rows, key);
      var i :| OnlyAt(table.rows, key, i);
      assert table.rows[i].id == bindingId;
    }

    /** External id to binding and back: `to_backend(to_openerp(eid))` is
        str(eid). */
    lemma BindingRoundTrip(externalId: PyScalar, bindingId: int)
      requires table.Valid()
      requires ToOpenerp(externalId, false, false) == Ok(Scalar(PyInt(bindingId)))
      ensures ToBackend(Some(bindingId), false) == Ok(Scalar(PyStr(Str(externalId))))
    {
      var key := ExternalKey(Str(externalId), backendId);
      ExactlyOne(table.rows, key);
      var i :| OnlyAt(table.rows, key, i);
      assert table.rows[i].id == bindingId;
    }

    /** External id to normal record and back through `to_backend(wrap=True)`,
        when that normal record has a single binding under this backend. An
        unset `erp_id` comes back as False, and `to_backend(False, wrap=True)`
        finds the binding again. */
    lemma NormalRecordRoundTrip(externalId: PyScalar, recordId: Option<int>)
      requires table.Valid()
      requires ToOpenerp(externalId, true, false) == Ok(NormalAnswer(recordId, false))
      requires !SeveralSatisfy(table.rows, WrapsRecord(recordId, backendId))
      ensures ToBackend(recordId, true) == Ok(Scalar(PyStr(Str(externalId))))
    {
      var key := ExternalKey(Str(externalId), backendId);
      ExactlyOne(table.rows, key);
      var i :| OnlyAt(table.rows, key, i);
      var wraps := WrapsRecord(recordId, backendId);
      assert wraps(table.rows[i]);
      ExactlyOne(table.rows, wraps);
      var k :| OnlyAt(table.rows, wraps, k);
      assert k == i;
    }
  }
}
