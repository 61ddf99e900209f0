# Magento connector: identifier binder and tax-rate matcher

A Dafny model of two lookup components of an Odoo–Magento connector.

- **The Magento model binder** (`MagentoModelBinder`). Magento records are linked to Odoo records by binding records. Each binding row has its own id, a Magento external id (`magento_id`), the id of the Odoo record it wraps (`erp_id`), a backend id, a `sync_date` and an `active` flag. The binder works for one backend. It maps an external id to a binding or to the wrapped record (`to_openerp`). It maps a binding, or a wrapped record, to its external id (`to_backend`). It writes the link (`bind`). It follows a binding to the record it wraps (`unwrap_binding`), and names the model that `erp_id` points to (`unwrap_model`).
- **The tax-rate matcher** (`account.tax.get_tax_from_rate`). It looks for a sales tax whose amount is within ±0.001 of a rate and whose "price included" flag is the one asked for. If none is found it retries with ±0.01. If that fails too it answers False.

Files:

- `search.dfy`, module `Search`. The ORM `search` over a table read in storage order is an order-preserving `Filter`. The module also proves what callers do with a search result: test it for emptiness, for a single row or several, or take its first row.
- `tax.dfy`, module `AccountTax`. `GetTaxFromRate` is a pure function, and lemmas state the two-tier rule. Because it is a function, the tax table cannot change during a call.
- `binder.dfy`, module `Binder`.
  - The table is a class, `BindingTable`, with a field `rows: seq<Binding>`. Its invariant is that row ids are positive and distinct, so the table is keyed by id. Nothing else is assumed of a row: `magento_id`, `erp_id` and `sync_date` may each be unset (None), and an unset `erp_id` reads as False, or as an empty recordset.
  - `MagentoModelBinder` holds the backend id, the binding model's name and field metadata, and a reference to the table.
  - The read-only operations are functions that read the table. `Bind` is a method that modifies it.
  - The Python values that cross the interface are a datatype `PyScalar` (None, bool, int, str), with Python truthiness, Python `== 0` and Python `str()`, including decimal `str()` of integers.
  - Recordsets that are returned are `BindingRecords(ids)` or `NormalRecords(ids)`.
  - Failures are `Result` or `Outcome` values:
    - `AssertionFailed` for a Python `assert`;
    - `ExpectedSingleton` for `ensure_one()`;
    - `MissingRecord(id)` for reading or writing an id that is not in the table;
    - `NoErpIdField(model)` for the `ValueError` of `unwrap_model`;
    - `MissingField("erp_id")` when the binding model has no `erp_id` field but an operation reads it. This covers the attribute error of `binding.erp_id` (models/unit/binder.py:78, 151) and the invalid-field error of the domain `('erp_id', '=', record_id)` (models/unit/binder.py:100).

Where the code and its documented intent differ, the model follows the code:

- `to_backend(record_id, wrap=False)` guards with `assert record`. That assertion fails only for a falsy id (`browse(0)` is empty). A non-zero id that is not in the table gives a non-empty recordset, and the call then fails when `magento_id` is read. The model has both failures: `AssertionFailed` and `MissingRecord`.
- `bind` does not check that the binding exists. It asserts only that `binding_id` is truthy. A missing binding makes the write fail (`MissingRecord`).
- `unwrap_binding(0)` does not fail: the empty recordset's `erp_id.id` is False.
- `to_backend(False, wrap=True)` does not answer None. The domain leaf `('erp_id', '=', False)` selects the bindings whose `erp_id` is unset, so `ToBackend` takes its record id as an `Option<int>`, with None standing for False and None. With `wrap` it compares `erp_id` with that value, and a literal 0 matches only an `erp_id` of 0. Without `wrap`, None and 0 both fail the assertion.

There is one exception. `bind` checks the external id with `external_id or external_id == 0`, and that check lets `False` through, although the comment beside it says False must be refused (see "## Findings"). The as-written check is modelled and its flaw exhibited, and `Bind` uses the corrected check.

## Model

| member | source | states |
|---|---|---|
| `Search.Filter` | models/unit/binder.py:70-73 | the search result holds exactly the table rows that satisfy the domain, and is no longer than the table |
| `Search.FilterFirst` | models/account/account.py:38-39 | the first row of a search result (`tax_ids[0]`) is the first row in table order that satisfies the domain |
| `Search.FilterCases` | models/unit/binder.py:74-80 | a search result is empty exactly when no row matches; it has two or more rows exactly when two rows match; when one row alone matches it is that row |
| `AccountTax.GetTaxFromRate` | models/account/account.py:29-49 | any tax returned is in the table and is a sales tax with the requested inclusive flag, and its amount lies within ±0.01 of the rate |
| `AccountTax.ExactTierFirstMatch` | models/account/account.py:33-39 | if some tax matches in the ±0.001 window, the answer is the first such tax in search order |
| `AccountTax.ExactTierBeatsEarlierLooseMatch` | models/account/account.py:38-46 | a ±0.001 match is returned even when a ±0.01 candidate comes earlier in search order, and that earlier candidate is not returned |
| `AccountTax.LooseTierFallback` | models/account/account.py:40-48 | with no ±0.001 match, the answer is the first tax in search order that matches the ±0.01 window |
| `AccountTax.NoTaxIffNoneWithinLooseWindow` | models/account/account.py:47-49 | the answer is False if and only if no sales tax with the flag lies within ±0.01; no input makes it fail |
| `AccountTax.ExactRateFoundInFirstTier` | models/account/account.py:33-39 | a sales tax stored at exactly the rate, with the flag, makes the search succeed in the ±0.001 tier |
| `Binder.NatToDecimal` | models/unit/binder.py:71 | `str()` of a natural number is a non-empty string of digits that starts with '0' only for zero, so it has no leading zeros |
| `Binder.IntDecimalRoundTrip` | models/unit/binder.py:71 | `str()` of an integer external id is a decimal numeral that reads back as the same integer |
| `Binder.IntKeysDistinct` | models/unit/binder.py:133 | two different integer external ids are never stored as the same `magento_id` |
| `Binder.AsWrittenAcceptsFalse` | models/unit/binder.py:122-127 | the source's check `external_id or external_id == 0` accepts False, which the corrected check refuses; False would be stored as "False" |
| `Binder.AsWrittenDiffersOnlyOnFalse` | models/unit/binder.py:122-124 | for every value, the source's check accepts it exactly when the corrected check does or the value is False |
| `Binder.ExternalIdAcceptedExactly` | models/unit/binder.py:122-124 | the corrected external-id check refuses exactly None, False and the empty string, and accepts 0 |
| `Binder.FindId` | models/unit/binder.py:110 | `browse(id)` reaches the row with that id, or reports that no row has it |
| `Binder.FindIdUnique` | models/unit/binder.py:131 | in a table keyed by id, the row `browse(id)` reaches is the only row with that id |
| `Binder.MagentoModelBinder.ToOpenerp` | models/unit/binder.py:59-80 | None (or an empty recordset with `browse`) exactly when no binding of this backend has `magento_id == str(external_id)`, archived ones included; an assertion failure exactly when two or more match; for a single match, its own id, or with `unwrap` its `erp_id` (False or an empty recordset if unset), as a record or an id; unwrapping fails with a missing field when the model has no `erp_id` field |
| `Binder.MagentoModelBinder.ToBackend` | models/unit/binder.py:82-112 | with `wrap`: a missing-field failure when the model has no `erp_id` field, and otherwise None exactly when no binding of this backend has that `erp_id` (an unset one, for a False or None record id), an `ensure_one` failure exactly when several do, and otherwise the single binding's `magento_id`; without `wrap`: an assertion failure exactly for a falsy id (None, False or 0), a missing-record failure exactly for an id not in the table, and otherwise that binding's `magento_id` (False if unset) |
| `Binder.MagentoModelBinder.Bind` | models/unit/binder.py:114-135 | fails the assertion exactly when the external id is refused or the binding id is falsy; fails the write exactly when no binding has that id; otherwise sets that binding's `magento_id` to `str(external_id)` and its `sync_date` to `now`, changes nothing else, and a following `to_openerp` returns that binding (and, with `unwrap`, its `erp_id`, or the missing-field failure on a model without that field) when the binding belongs to this backend and no other binding of this backend has that external id; on failure the table is unchanged |
| `Binder.MagentoModelBinder.UnwrapBinding` | models/unit/binder.py:137-154 | a missing-field failure when the model has no `erp_id` field; otherwise the `erp_id` of the given binding, as a record or as an id (empty or False if unset); an empty recordset or False for a falsy id; a missing-record failure for an id not in the table |
| `Binder.MagentoModelBinder.UnwrapModel` | models/unit/binder.py:156-170 | the `comodel_name` of the `erp_id` field; a ValueError naming the model exactly when the model has no `erp_id` field |
| `Binder.MagentoModelBinder.MisconfiguredModelFails` | models/unit/binder.py:151-170 | `unwrap_model` fails exactly when `unwrap_binding` fails for the missing `erp_id` field, and exactly when `to_backend(wrap=True)` does |
| `Binder.MagentoModelBinder.UnwrapAfterLookup` | models/unit/binder.py:77-80 | looking up an external id, then unwrapping the binding found, gives the same answer as looking it up with `unwrap` |
| `Binder.MagentoModelBinder.BindingRoundTrip` | models/unit/binder.py:109-112 | if `to_openerp(eid)` gives binding id `b`, then `to_backend(b)` gives back `str(eid)` |
| `Binder.MagentoModelBinder.NormalRecordRoundTrip` | models/unit/binder.py:98-106 | if `to_openerp(eid, unwrap=True)` gives record `r` (False when the binding's `erp_id` is unset), and only one binding of this backend has that `erp_id`, then `to_backend(r, wrap=True)` gives back `str(eid)` |

## Findings

| source | as written | input that shows it | evidently intended | confidence | as-written member | corrected member |
|---|---|---|---|---|---|---|
| models/unit/binder.py:124 | `external_id or external_id == 0` passes for False, because `False == 0` holds in Python | `bind(False, 7)` passes the assertion and stores `magento_id = "False"` | refuse False, like None and "", and among falsy values accept only the integer 0 (the comment at lines 122-123) | high; not executed | `Binder.AsWrittenAcceptsFalse` | `Binder.ExternalIdAcceptedExactly` |

The source's check is `Binder.AssertedExternalIdAsWritten`. The corrected check is `Binder.ExternalIdAccepted`, and `Bind` uses it.

## Left out

- Recordset arguments: the `isinstance(..., BaseModel)` branches of `to_backend`, `bind` and `unwrap_binding` (models/unit/binder.py:94-97, 130-131, 146-149), including `ensure_one` on a recordset argument, are not modelled. Arguments are ids. For `bind` and `unwrap_binding`, and for `to_backend` without `wrap`, the id 0 stands for every falsy id (None, False, 0), since `browse` gives the empty recordset for each of them. `to_backend` with `wrap` tells them apart, as described above.
- External ids other than None, bool, int and str (a float, for one) are not modelled. `0.0 == 0` would pass the source's check too.
- `odoo.fields.Datetime.now()` is not modelled: `Bind` takes the timestamp as its parameter `now`.
- The comment at models/unit/binder.py:128 says the write should not trigger an export. That depends on change tracking that is not in these files.
- The `@magento` registration, `_model_name`, and the base classes `Binder` and `MagentoBinder` are not modelled. They are framework wiring and foreign code.
- Database unique constraints on binding models are defined outside these files and are not modelled. So `Bind` can give two bindings the same key. Lookups then fail, as the model states.
- The ORM is reduced to a table read in storage order. Not modelled: how `search` orders rows, concurrent writers, the text of assertion and error messages, and which exception class the ORM raises for a missing record (`MissingRecord` here).
- For `get_tax_from_rate`, the sequence is taken to be the taxes that a default search can see, in search order. Not modelled: filtering out archived taxes, record rules, the unused `context` parameter, and the recordset `self`. The default `is_tax_included=False` is not modelled; the flag is always passed.
- IEEE floating-point rounding of `rate ± 0.001` and `rate ± 0.01` is not modelled. Amounts and rates are exact reals.
