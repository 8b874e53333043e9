# pynoorm in Dafny

pynoorm is a small Python helper library for working with SQL without an ORM.
This project models its three core parts and proves what they promise.

- **Binders** (`pynoorm/binder.py`). A query template uses `%(name)s`
  placeholders. A binder finds each placeholder's value in the first of an
  ordered list of arguments that has it, first as an item, then as an
  attribute. It then rewrites the template for one PEP 249 paramstyle:
  - `pyformat` returns the template unchanged and a dict of binds;
  - `qmark` turns every placeholder into `?` and returns one bind per
    occurrence, in order;
  - `named` turns every placeholder into `:name` and returns a dict.

  `Binder.factory` picks the binder from a registry of paramstyles. The
  model makes the lookups of Python's `%` formatting engine explicit
  (module `Template`). One class, tagged with its paramstyle, stands for the
  three subclasses (module `Binders`).
- **Linker** (`pynoorm/linker.py`).
  - `dict_from_list` indexes objects or dicts by a key: one attribute name,
    or a tuple of them.
  - `link` walks the right-hand objects, reads each one's key and finds the
    left object under that key. It appends the right object to the left
    one's list, or stores it in a dict or plain attribute. Optionally it
    points the right object back at its parent. Right objects with no
    parent are recorded as orphans.
  - `initialize_lefts` gives left objects that were never linked an empty
    value.

  Objects live in a heap. `Obj` is a class with a `kind` (instance or
  mapping) and mutable `fields` (module `Objects`). The methods update the
  objects in place and are proved against fold functions over a snapshot
  of the heap (modules `Linker` and `LinkerFacts`).
- **Overrides** (`pynoorm/overrides.py`). A lookup table that the linker
  fills by key. Each right-hand row found under a key copies some of its
  attributes into that key's working dict, possibly under alias names.
  Later rows override earlier ones. The table is read back with `as_dict`
  or `as_objects` (modules `Overrides` and `OverridesFacts`).

Python values are modelled by the datatype `Objects.Value`. Numbers and
strings are abstract scalars. Object references are `Ref(o)`. Lists, tuples
and dicts are sequences and maps of values. Python exceptions are the
datatype `Objects.Error`. Each operation that can raise returns
`Result`/`Option`.

## Model

| member | source | states |
|---|---|---|
| Template.Scan | pynoorm/binder.py:106 | every token `%` produces is well formed: literal text is non-empty and holds no `%`; a key holds no parenthesis |
| Template.Lex | pynoorm/binder.py:106 | reading the first token of a template: a token read is well formed and is exactly the text it spans |
| Template.ScanRoundTrip | pynoorm/binder.py:106 | the tokens `%` reads spell a prefix of the template; when formatting meets no malformed `%`, they spell the whole template |
| Template.UntokenizeRoundTrip | pynoorm/binder.py:160 | scanning the text that canonical tokens spell gives back exactly those tokens, with no error |
| Binders.Resolve | pynoorm/binder.py:116-136 | a name is found iff some argument yields it; the value comes from the first such argument |
| Binders.Binder.constructor | pynoorm/binder.py:54-55 | a new binder has the paramstyle, empty binds and no arguments |
| Binders.Binder.GetItem | pynoorm/binder.py:112-138 | `binder[name]` returns the marker text and updates the binds exactly as `Lookup` says; pyformat and named answer a name already bound without a new lookup; a name no argument has raises KeyError |
| Binders.Binder.Format | pynoorm/binder.py:102-107 | `format` returns what `FormatSpec` says, and leaves the arguments and the binds the run built in the binder |
| Binders.RunStopsAfterFailure | pynoorm/binder.py:135-136 | once a lookup has raised, the rest of the template changes nothing |
| Binders.FirstMissing | pynoorm/binder.py:164-198 | it is None iff every placeholder name has a value; otherwise it is the first name without one |
| Binders.StepMeaning | pynoorm/binder.py:228-264 | one more token keeps the error equal to "KeyError on the first missing name", and on success the binds hold the values of the names seen |
| Binders.RunMeaning | pynoorm/binder.py:153-198 | formatting a token sequence fails with KeyError for the first name without a value; otherwise the binds are those of the names |
| Binders.FormatMeaning | pynoorm/binder.py:102-107 | `format` succeeds iff every placeholder has a value and the template is well formed; a missing name raises KeyError for the first one, before a later format error; on success the binds belong to the placeholders |
| Binders.PyformatKeepsTemplate | pynoorm/binder.py:88-107 | pyformat returns the template character for character; the binds are a dict with exactly the distinct placeholder names, each holding the first argument's value |
| Binders.NamedRewrite | pynoorm/binder.py:208-264 | named rewrites each `%(k)s` into `:k` and each `%%` into `%`; the binds are a dict with exactly the distinct names and their first-found values |
| Binders.QmarkPositional | pynoorm/binder.py:153-198 | qmark rewrites each placeholder into `?` of a template its tokens spell back exactly; the binds hold one value per occurrence, in template order, each resolved anew (items, then attributes, even after a KeyError) |
| Binders.Factory | pynoorm/binder.py:58-78 | pyformat, qmark and named give a binder of that paramstyle; numeric and format raise NotImplementedError with "<style> is not implemented yet"; any other paramstyle gives None |
| Linker.FetchAllMeaning | pynoorm/linker.py:108-129 | reading several names succeeds iff all are present, giving their values in order; otherwise it raises the missing-name error of the first absent name |
| Linker.Put | pynoorm/linker.py:304-365 | a setter leaves every object except its target unchanged |
| Linker.Store | pynoorm/linker.py:304-365 | applying a setter to live objects changes them exactly as `Put` says and reports its error |
| Linker.LinkResultHelper.constructor | pynoorm/linker.py:17-33 | a new helper keeps the left dict, attribute name and type, and has no right orphans |
| Linker.LinkResultHelper.AddRightOrphan | pynoorm/linker.py:39-41 | the orphan is appended to `right_orphans` |
| Linker.LinkResultHelper.InitializeLefts | pynoorm/linker.py:43-67 | the left objects are visited in an order of `left.values()` (one visit per key), and each is initialised as `Initialize` says; the result reports the error, nothing to do, or success |
| Linker.InitAll | pynoorm/linker.py:55-60 | the loop of `initialize_lefts` follows `InitRun` over the left objects |
| Linker.InitAt | pynoorm/linker.py:55-60 | after passes that raised nothing, the pass over the next left object extends the run by one |
| Linker.InitDone | pynoorm/linker.py:55-67 | the loop ends after the last left object or at the first exception, and either way the run is complete |
| Linker.ValuesOf | pynoorm/linker.py:45 | the list holds the dict's values in the order of some enumeration of its keys: every key exactly once, so a value appears once for each key that holds it |
| Linker.InitOne | pynoorm/linker.py:55-60 | one pass of the `initialize_lefts` loop changes the object as `InitStep` says |
| Linker.InitStopsAfterFailure | pynoorm/linker.py:55-67 | after a raised exception, the rest of the objects are untouched |
| Linker.LinkRunNext | pynoorm/linker.py:225-243 | the run over one more right object is one more pass of the loop |
| Linker.RunDone | pynoorm/linker.py:225-249 | the loop ends after the last right object or at the first exception, and either way the run is complete |
| Linker.RunStopsAfterFailure | pynoorm/linker.py:244-249 | once a pass has raised, the later right objects change nothing |
| Linker.Linker.constructor | pynoorm/linker.py:100-106 | a new linker keeps `key_left` and has no helper yet |
| Linker.Linker.DictFromList | pynoorm/linker.py:131-154 | `dict_from_list` returns the index `Index` defines, or the first exception |
| Linker.Linker.Link | pynoorm/linker.py:157-249 | `link` makes a fresh helper; `key_right` defaults to `key_left`; objects, orphans and the swallowed exception are as `LinkRun` says up to the failing pass |
| Linker.LinkAll | pynoorm/linker.py:225-243 | the loop of `link` follows `LinkRun` over the right objects |
| Linker.LinkAt | pynoorm/linker.py:226-243 | after passes that raised nothing, the pass over the next right object extends the run by one |
| Linker.LinkOne | pynoorm/linker.py:226-243 | one pass of the loop follows `LinkStep` |
| Linker.IndexStopsAfterFailure | pynoorm/linker.py:144-152 | after a key that cannot be read or hashed, `dict_from_list` ignores the rest |
| LinkerFacts.KeyGetter | pynoorm/linker.py:108-129 | one key name gives its value by item for a mapping and by attribute for an object; several give a tuple of values, in order; a key that is not a string or a sequence of strings raises TypeError |
| LinkerFacts.GetterKindMismatch | pynoorm/linker.py:108-129 | a getter built from a mapping raises TypeError on an object; one built from an object raises AttributeError on a mapping |
| LinkerFacts.IndexSucceeds | pynoorm/linker.py:131-154 | `dict_from_list` succeeds iff every object's key can be read and hashed |
| LinkerFacts.IndexSnoc | pynoorm/linker.py:144-149 | indexing one more object maps its key to it |
| LinkerFacts.IndexHasEveryKey | pynoorm/linker.py:131-154 | every object's key is in the index |
| LinkerFacts.IndexOnlyKeys | pynoorm/linker.py:131-154 | every key of the index is some object's key |
| LinkerFacts.IndexLastWins | pynoorm/linker.py:144-149 | each key maps to the last object carrying it |
| LinkerFacts.StepFacts | pynoorm/linker.py:228-232 | a pass that raised nothing read a hashable key |
| LinkerFacts.RunShape | pynoorm/linker.py:225-243 | a run that raised nothing built its getter from the first right object |
| LinkerFacts.StepAt | pynoorm/linker.py:226-243 | the m-th pass, stated in terms of the m-th object's key before `link` |
| LinkerFacts.RunOrphans | pynoorm/linker.py:225-235 | after a run that raised nothing, every key was readable and hashable, and the orphans are exactly the right objects whose key has no left object, in order |
| LinkerFacts.StepLeft | pynoorm/linker.py:231-239 | a pass that finds a left object applies the left setter to it |
| LinkerFacts.StepRight | pynoorm/linker.py:241-243 | a pass sets the back reference on the right object iff `attrname_on_right` is set |
| LinkerFacts.StepAtShape | pynoorm/linker.py:225-243 | the getter of a run is the one built from the first right object |
| LinkerFacts.PutOne | pynoorm/linker.py:318-359 | a list or plain setter that raised nothing adds exactly one match |
| LinkerFacts.LeftStep | pynoorm/linker.py:231-239 | a pass with a list or plain target adds the right object to its left object |
| LinkerFacts.LeftHit | pynoorm/linker.py:231-239 | the m-th pass adds the m-th right object to the left object its key finds |
| LinkerFacts.LeftStepAt | pynoorm/linker.py:225-243 | the m-th pass, seen from one left object |
| LinkerFacts.LeftLinks | pynoorm/linker.py:155-249 | with `type_on_left=list` each left object's list ends as its old list followed by every right object that found it, in order; with `None` the attribute holds the last such object; left objects nothing found are unchanged |
| LinkerFacts.DictLinkedSnoc | pynoorm/linker.py:346-355 | one more dict-mode match stores it under its dict key |
| LinkerFacts.DictStep | pynoorm/linker.py:342-355 | a dict-mode pass needs the left object to be an instance and stores the right object under its `dictkey_attrname_left` key |
| LinkerFacts.PutKeyed | pynoorm/linker.py:342-355 | a dict-mode store that raised nothing went into an instance, read a hashable key from the right object, and put it under that key in the dict attribute, which starts empty when absent |
| LinkerFacts.DictHit | pynoorm/linker.py:342-355 | the m-th dict-mode pass stores the m-th right object in its left object's dict |
| LinkerFacts.DictStepAt | pynoorm/linker.py:342-355 | the m-th dict-mode pass, seen from one left object |
| LinkerFacts.DictLinks | pynoorm/linker.py:155-249 | with `type_on_left=dict` every left object that is found is an instance whose dict holds its old entries plus, under each match's dict key, the last match with that key; left objects nothing found are unchanged |
| LinkerFacts.RightStepAt | pynoorm/linker.py:241-243 | the m-th pass sets the m-th right object's back reference |
| LinkerFacts.RightLinks | pynoorm/linker.py:241-243 | with `type_on_right=None` each visited right object points back at the left object it found when `attrname_on_right` is set, and is unchanged otherwise |
| LinkerFacts.ClearMeaning | pynoorm/linker.py:252-299 | an empty setter applied to the kind of object it was built for stores the empty value of the type, and never raises; it keeps a field that is already there with `check_empty`, and with `setdefault` on a dict |
| LinkerFacts.ClearOtherKind | pynoorm/linker.py:252-299 | an empty setter built for one kind raises on the other: a dict's setter raises AttributeError for `has_key` (with `check_empty`) or `setdefault`, or TypeError for item assignment, on an object; an object's setter raises AttributeError on a dict |
| LinkerFacts.InitStepMeaning | pynoorm/linker.py:55-60 | one pass leaves an object with the attribute unchanged and gives the empty value otherwise; a type that is neither callable nor None raises |
| LinkerFacts.InitRunMeaning | pynoorm/linker.py:43-67 | the loop raises exactly when the type is neither callable nor None and some object lacks the attribute, and it raises NotImplementedError; otherwise each object that lacked the attribute has the empty value |
| LinkerFacts.InitRunLast | pynoorm/linker.py:55-60 | the loop over one more object keeps the closed form of `InitRunMeaning` |
| LinkerFacts.InitializeMeaning | pynoorm/linker.py:43-67 | `initialize_lefts` raises NotImplementedError exactly when the type is neither callable nor None and a left object lacks the attribute; otherwise only the left objects that lacked it change, and they get the empty value |
| Overrides.Normalize | pynoorm/overrides.py:53-61 | normalisation succeeds iff every entry is a name or a pair; the mapping has one (left, right) pair per entry, in order; an entry that is a tuple but not a pair raises ValueError |
| Overrides.NormalizeNames | pynoorm/overrides.py:51-61 | the loop builds the mapping `Normalize` defines |
| Overrides.Rows | pynoorm/overrides.py:122-125 | each row is the kind and fields of its object |
| Overrides.Copied | pynoorm/overrides.py:80-98 | the fields a row contributes are keyed by exactly the left names of the mapping |
| Overrides.Overrides.constructor | pynoorm/overrides.py:23-49 | a new table is empty and keeps the mapping and the source kind |
| Overrides.Overrides.Get | pynoorm/overrides.py:70-78 | `get` returns the key's working dict, adding an empty one for a new key; an unhashable key raises TypeError and changes nothing |
| Overrides.Overrides.CopyFields | pynoorm/overrides.py:83-84 | the loop copies the mapped fields into the key's working dict as `CopyRun` says, keeping the writes before an exception |
| Overrides.Overrides.SetterAttrFromDict | pynoorm/overrides.py:80-88 | copies by item: `o_left[l] = o_right[r]` for each pair |
| Overrides.Overrides.SetterAttrFromObject | pynoorm/overrides.py:90-98 | copies by attribute: `o_left[l] = getattr(o_right, r)` for each pair |
| Overrides.Overrides.Setter | pynoorm/overrides.py:46-49 | the setter reads by item when the right type is a dict and by attribute otherwise |
| Overrides.Overrides.AsDict | pynoorm/overrides.py:100-107 | `as_dict` has the same keys and working dicts as the table |
| Overrides.Overrides.AsObjects | pynoorm/overrides.py:109-120 | `as_objects` gives each key a new, distinct object whose attributes are that key's working dict |
| Overrides.Overrides.Link | pynoorm/overrides.py:122-129 | linking rows updates the table as `LinkRows` says, and reports the exception the linker swallowed |
| Overrides.Overrides.LinkOne | pynoorm/overrides.py:125 | one row updates the table as `LinkRow` says |
| Overrides.New | pynoorm/overrides.py:23-61 | construction succeeds iff normalisation does, with that mapping and an empty table; a bad alias raises ValueError |
| Overrides.CopyStopsAfterFailure | pynoorm/overrides.py:83-88 | after a failed read, the rest of the mapping changes nothing |
| Overrides.LinkRowsStopsAfterFailure | pynoorm/overrides.py:122-129 | after a failed row, the later rows change nothing |
| OverridesFacts.NormalizeOne | pynoorm/overrides.py:53-61 | one well-formed entry gives one pair |
| OverridesFacts.NormalizeForms | pynoorm/overrides.py:25-28 | `"tax"` gives `[("tax","tax")]`; `("rate","tax")` gives `[("rate","tax")]`; `["tax","state"]` gives both pairs; a 3-tuple raises ValueError |
| OverridesFacts.FetchMeaning | pynoorm/overrides.py:80-98 | reading a right name succeeds iff the access suits the row and the name is present; item access on an object raises TypeError, attribute access on a dict raises AttributeError, a missing name raises KeyError or AttributeError |
| OverridesFacts.CopyMeaning | pynoorm/overrides.py:80-98 | copying succeeds iff every right name can be read, and then the working dict is the old one overlaid with the copied fields |
| OverridesFacts.CopyFails | pynoorm/overrides.py:80-98 | a failed copy raises the error of the first unreadable name and keeps the fields copied before it |
| OverridesFacts.CopiedAt | pynoorm/overrides.py:83-84 | a left name receives the value of the last pair that names it |
| OverridesFacts.AliasRate | pynoorm/tests/test_overrides.py:170-189 | with `("rate","tax")` an object row's `tax` is stored under `rate` |
| OverridesFacts.RowStep | pynoorm/linker.py:226-239 | one row that raised nothing has a readable, hashable key whose working dict gets the copied fields |
| OverridesFacts.LinkRowsMeaning | pynoorm/overrides.py:122-129 | after rows that raised nothing, every row's key is in the table (no orphans); the keys are the old ones plus the rows'; each key's working dict is its old one overlaid with the fields of the last row carrying it |
| OverridesFacts.LayerOver | pynoorm/overrides.py:80-98 | one more row overlays its fields on the key's working dict |
| OverridesFacts.LastStep | pynoorm/linker.py:225-243 | one more row keeps the closed form of `LinkRowsMeaning` |
| OverridesFacts.Layering | pynoorm/tests/test_overrides.py:150-163 | linking base rows and then override rows: a key an override row carries takes the last override's fields, a key only base rows carry takes the last base row's fields, both over its old dict, and other keys are unchanged |
| OverridesFacts.LayerKey | pynoorm/tests/test_overrides.py:150-163 | the same, for one key |

## Left out

- Python's `%` engine is modelled only for the subset the binders meet: text, `%%` and `%(name)s`. Everything else is a format error that stops the scan before any lookup, where Python differs:
  - `%(x)r` and `%(x)10s`: Python looks `x` up, records the bind, and formats successfully.
  - `%(x)d`: Python looks `x` up and records the bind, then raises TypeError, because no binder returns a number (pyformat returns None, qmark `?`, named `:x`).
  - A keyless `%s`: Python formats the binder itself once and succeeds, so pyformat would return the template and its binds.
  - `%(x)` at the end of the template: Python looks `x` up before it reports the incomplete format, so a missing `x` raises KeyError.
  - A key with nested parentheses.
- Binders.Binder.Format: the `__call__` alias of `format` is not modelled. Only the pyformat and named binders define it (binder.py:109, binder.py:225); calling a qmark binder raises TypeError in Python, which the model does not represent.
- Binders.Binder.Format: the `qry` attribute that the qmark and named binders set (binder.py:158-161, binder.py:220-223) is not kept. It equals the returned query.
- Binders.Factory: the KeyError message for an unknown paramstyle is built but never raised. The model returns `NoBinder` and leaves out the message text.
- Custom `setter_left`/`setter_right` callbacks of `link` are not modelled, except the setter `Overrides` passes. Callbacks are arbitrary Python code.
- `to_object_class` of `Overrides` is not modelled. `as_objects` always builds plain objects, as the default `AsObject` does.
- `Overrides.__getitem__` and `Overrides.values()` are not modelled. `link` uses only `get`, and the linker's `initialize_lefts` is not called on an `Overrides`.
- Attribute lookup on a dict finds none of its methods (`keys`, `get`, ...): the model raises AttributeError for every name read by attribute from a dict, where Python would find a method name. Dotted names for `attrgetter` are not modelled.
- Linker.Put: storing into an existing attribute of a dict type whose value is not a dict raises TypeError here. In Python, a list under an integer key would accept it.
- Lists and working dicts are values, so aliasing between them is not modelled. Objects are real heap objects. `as_dict`'s shallow copy cannot be told apart from the table at this level.
- `link` with `right` given as a dict (Python iterates over its keys) is not modelled. `right` is a sequence of objects.
- `dict_from_list` given a dict is not modelled.
- `left_orphans`, `set_exception` and `update` of the helper are not modelled, because `link` never calls them.
- The pdb/`print` debugging hooks and the logging in `except` blocks are not modelled. They do not change state.
- The assertion that `attrname_on_left` is a string (linker.py:215-218) is left out. Names are always strings here.
- Numbers, strings and floats are abstract values. No arithmetic on them is modelled.
- Linker.Linker.Link: the exception that `finally: return self.helper` swallows is returned as `failure`, so the model can state it. Python gives it to no caller.
- Overrides.Overrides.Link: the linker's `helper` attribute is not updated. The call is modelled by the fold `LinkRows` over the table, which has the same effect on the table. It carries no orphans because `get` never misses.
- LinkerFacts.RunOrphans: assumes `Separate` (right objects pairwise distinct, none a left object). Without it, an earlier pass can change a key that a later pass reads: with `rights = [a, a]` and `attrname_on_right` equal to the right key, the first pass replaces `a`'s key with its left object, so the second pass makes `a` an orphan, while the closed form reads keys from before `link` and reports none. The helpers StepAt, StepOrphan, RunShape, StepAtShape, LeftHit, LeftStepAt, LeftSetterStep, DictHit, DictStepAt, DictSetterStep, RightStepAt and RightKeep share this assumption. StepFacts states the per-pass fact, reading the key at pass time, without it.
- LinkerFacts.LeftLinks: assumes the right objects are pairwise distinct and none is a left object (`Separate`). The source makes no such assumption.
- LinkerFacts.DictLinks: assumes `Separate`, and that all right objects are of one kind, as the source's setter, built from the first object, requires.
- LinkerFacts.RightLinks: assumes `Separate`.
- LinkerFacts.InitializeMeaning: assumes all left objects are of one kind. Mixed kinds are handled by `Initialize` itself, but not by this closed form.
- Python 2 specifics (`has_key`, `except X, e`) are modelled by their behaviour.
- The comment "these are not done yet" above the qmark registration (binder.py:289) is outdated. The code registers a working qmark binder, and the model follows the code.
