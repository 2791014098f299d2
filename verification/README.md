# akiradb object-graph mapper — a Dafny model of its core

akiradb lets Python code declare model classes with typed scalar properties
and relations to other models, and turns operations on instances into Cypher
statements for a graph store. This project models the deterministic core of
that mapper as pure Dafny functions, methods and lemmas:

- **Conditions** (`conditions.dfy`): the immutable condition tree that Python
  operators build on property references. It has property and value leaves,
  negation, and the nine binary nodes `=`, `<>`, `<`, `<=`, `>`, `>=`, `and`,
  `or` and `xor`. The module also covers the tree's rendering as a `where`
  fragment. Literal values are inlined through the literal renderer; nothing
  is bound as a query parameter.
- **Utils** (`utils.dfy`):
  - the mapping from a declared Python type to a store property kind, with
    `Optional` unwrapping;
  - the literal renderer (`null`, quoted ISO dates, `repr`);
  - row hydration: the null sentinel, missing properties, and dates read
    from milliseconds.
- **Proxies** (`proxies.dfy`): the property change recorder, its in-place
  `+=`, `-=` and `*=`, its `repr`/`str`, and `clear_changes`. It also covers
  the descriptor whose get and set keep a per-instance map of recorders.
- **Relations** (`relations.dfy`):
  - `Many`/`One` edge storage and their `WithProperties` variants;
  - the link operations `ManyWithProperties.add` queues on the owning
    instance;
  - the property-bag text of a `Properties` dataclass;
  - the statement a queued link runs.
- **BaseModel** (`base_model.dfy`): splitting an instance's attributes into
  properties and relations, the property-bag text, `create` as written
  (which raises before running anything) and as evidently intended (two
  statements), and `save`.
- **PyValues** (`py_values.dfy`) and **Text** (`text.dfy`) are the Python
  value model and string tools these modules share:
  - `repr`/`str` of `None`, booleans, integers, strings and dates, with
    CPython's quote choice and escapes for strings;
  - truthiness, and `+`, `-` and `*` on scalars;
  - `str.join` and `str.split`;
  - substring occurrence and parenthesis balance.

Python exceptions are values (`Result` with `TypeError`, `AttributeError`,
`IndexError`, `ValueError` or `OverflowError`). `OutsideModel` marks
operations on values the model keeps opaque, such as floats, bytes and
arbitrary objects.

The model follows the code, which in several places does less than its
names and comments suggest:

- Condition values are inlined as literals, not bound as parameters.
- The recorder's change list is never appended to. Only `clear_changes`
  touches it.
- `ManyWithProperties.add` queues the reverse link of a bidirectional
  relation, but it does not add the source to the target's inverse relation.
  That mirroring is left as a TODO in `relations.py`.
- `create` does not record the store identifier on the instance.
- `save` flushes nothing, so queued links stay pending.
- The relation's `_source` is initialised to `None`, and none of the modelled
  files sets it. The model therefore takes the source as part of the
  relation's state.
- In hydration, the null sentinel becomes an explicit `None` entry rather
  than an absent key.

## Model

| member | source | states |
|---|---|---|
| Conditions.Invert | src/akiradb/model/conditions.py:7-8 | `~c` is a negation node whose operand is `c` itself |
| Conditions.Apply | src/akiradb/model/conditions.py:62-68 | an operator builds a node of its own class holding the left operand unchanged; a condition right operand is stored as is, any other value is wrapped in a value leaf |
| Conditions.RenderShapes | src/akiradb/model/conditions.py:6-113 | a property renders as `n.<name>`; a value leaf renders as exactly its literal; a negation renders as `not (c)`; comparisons render as `lhs OP rhs` with no added parentheses; `and`/`or`/`xor` render as `(lhs) OP (rhs)`; a non-condition right operand of a comparison is inlined as its literal; operators leave their operands unchanged, so `c OP c` renders `c` identically on both sides |
| Conditions.RenderMentionsProperties | src/akiradb/model/conditions.py:42-43 | every property the tree refers to occurs in the rendered text as `n.<name>` |
| Conditions.RenderBalanced | src/akiradb/model/conditions.py:54-113 | when the leaves render with balanced parentheses, the whole rendering is balanced |
| Conditions.ConnectiveEnclosesOperands | src/akiradb/model/conditions.py:101-113 | when every leaf renders with balanced parentheses: in a rendered connective, the first `(` is closed right after the left operand and the second only by the last character, so each operand is enclosed on its own |
| Conditions.NegationEnclosesOperand | src/akiradb/model/conditions.py:54-59 | when every leaf renders with balanced parentheses, the parenthesis opened after `not ` is closed only by the last character |
| Utils.NonNoneMembers | src/akiradb/model/utils.py:24-25 | every kept member is a member other than `NoneType`; the result is empty exactly when every member is `NoneType`; a leading non-None member comes first |
| Utils.NonNoneMembersStep | src/akiradb/model/utils.py:24-25 | a leading `NoneType` is dropped, and any other leading member is kept in front of the filtered rest |
| Utils.NonNoneMembersCounts | src/akiradb/model/utils.py:24-25 | the filter drops every `NoneType` and keeps each other member as many times as it occurs |
| Utils.NonNoneMembersConcat | src/akiradb/model/utils.py:24-25 | filtering a concatenation is the concatenation of the filtered parts, so members keep their relative order |
| Utils.NonNoneMembersKeepsAll | src/akiradb/model/utils.py:24-25 | a union without `NoneType` keeps all its members, unchanged |
| Utils.PropertyType | src/akiradb/model/utils.py:23-40 | a union is mapped through its first non-None member, with an IndexError when it has none; otherwise int, bool, float, bytes, date and datetime map to their kinds and every other class maps to `string` |
| Utils.PropertyTypeOnto | src/akiradb/model/utils.py:27-40 | every store kind is reached by some class, and distinct kinds have distinct keywords |
| Utils.StringIsTheFallback | src/akiradb/model/utils.py:39-40 | a non-union class maps to `string` if and only if it is none of the six listed classes |
| Utils.OptionalUnwraps | src/akiradb/model/utils.py:24-25 | `Optional[T]`, with `None` written first or last, maps like `T` |
| Utils.CypherValue | src/akiradb/model/utils.py:43-55 | one recorder level is unwrapped first; then None renders as `null`; an instance of `datetime.date` or of any class derived from it (`datetime`, a user subclass) renders as its ISO text in single quotes; anything else renders as its `repr` |
| Utils.LiteralsReadBack | src/akiradb/model/utils.py:48-55 | integer and string literals parse back to the value they render, and `null`, integer literals and string literals never coincide |
| Utils.RecorderRendersAsItsValue | src/akiradb/model/utils.py:44-46 | a recorder holding a plain value renders exactly like that value |
| Utils.SetPreservesLiteral | src/akiradb/model/utils.py:44-46 | with the corrected descriptor set, a property's literal after an assignment equals the literal of the assigned value |
| Utils.NestedRecorderRendersNone | src/akiradb/model/utils.py:44-49 | counterexample: with the as-written set, a recorder holding None that is assigned to a property without a recorder renders as `None`; the corrected set gives `null` |
| Utils.NormalizeValueCases | src/akiradb/model/utils.py:62-71 | the sentinel `'  cypher.null'` becomes None; a truthy integer value of a field declared `date`/`datetime` is converted from `value // 1000` seconds, and an error the conversion raises is the result; a truthy string or date there raises TypeError; falsy values and other fields pass through |
| Utils.HydrateRow | src/akiradb/model/utils.py:60-75 | for any per-value normalisation: succeeds exactly when every declared property's value normalises; then each declared property holds its normalised row value, or None when the row lacks it, and other keys keep their row values; on failure, the error is that of the first failing declared field |
| Utils.ParseCypherProperties | src/akiradb/model/utils.py:58-75 | with the date normalisation: succeeds exactly when every declared property's value normalises, so a timestamp conversion that raises fails the row; then each declared property holds its normalised row value, or None when the row lacks it; other keys keep their row values; on failure, the error is that of the first failing declared field |
| Proxies.NewRecorder | src/akiradb/model/proxies.py:9-11 | a new recorder holds the given value and an empty change list |
| Proxies.ReprThroughRecorders | src/akiradb/model/proxies.py:25-29 | however deeply recorders nest, `repr` and `str` equal those of the plain value inside |
| PyValues.Arith | src/akiradb/model/proxies.py:14-22 | the value operation behind the in-place operators: integers and booleans do integer arithmetic; strings concatenate; a string times an integer, on either side, repeats the string; None operands, string subtraction, a string added to a non-string and a string times a string raise TypeError |
| PyValues.RepeatCopies | src/akiradb/model/proxies.py:21-23 | the repetition `s * n` that `*=` gives for a string holds `s` in full at every offset `q * len(s)`, for `q < n` |
| Proxies.ObjArith | src/akiradb/model/proxies.py:13-23 | on two plain values the operation is `PyValues.Arith`; a recorder on the right raises; a recorder on the left yields a recorder (what it holds is stated by `Proxies.ObjArithThroughRecorders`) |
| Proxies.ObjArithThroughRecorders | src/akiradb/model/proxies.py:13-23 | a recorder on the left succeeds exactly when its value's operation does, and yields the same recorder, with the same identity and changes, holding `value op other`; through any depth of recorders, the plain value at the bottom is combined with a plain right operand |
| Proxies.InPlace | src/akiradb/model/proxies.py:13-23 | `+=`, `-=` and `*=` succeed exactly when the value operation does; the value becomes `value op other`; the same recorder, with the same change list, is returned |
| Proxies.InPlaceOnIntegers | src/akiradb/model/proxies.py:13-23 | on an integer recorder the three operators add, subtract and multiply |
| Proxies.ClearChanges | src/akiradb/model/proxies.py:31-32 | the change list becomes empty; identity and value are unchanged |
| Proxies.Get | src/akiradb/model/proxies.py:39-43 | returns the instance's recorder when it has one, otherwise the default the class holds under the name; AttributeError exactly when there is no recorder and the class holds the descriptor itself or nothing under the name |
| Proxies.SetAsWritten | src/akiradb/model/proxies.py:45-50 | with a recorder in place, a plain value overwrites only that recorder's value and a recorder argument changes nothing; without one, a fresh recorder with empty changes holds the argument; other entries are unchanged |
| Proxies.Set | src/akiradb/model/proxies.py:45-50 | corrected set: the recorder in place keeps its identity and changes, or a fresh one is installed; other entries are unchanged |
| Proxies.SetThenGet | src/akiradb/model/proxies.py:39-50 | reading a property right after assigning it gives a recorder holding the assigned value, with the same `repr` |
| Proxies.ForeignRecorderAssignmentIgnored | src/akiradb/model/proxies.py:46-48 | counterexample: with the as-written set, `a.name = b.name` leaves `a.name` at `"A"`; the corrected set gives `"B"` |
| Proxies.AugAssign | src/akiradb/model/proxies.py:13-50 | `inst.name op= x`: AttributeError whenever the read raises; a recorder is updated in place, keeping its identity and changes; a default yields a fresh recorder, with the instance's identity for that name and no changes, holding `default op x`; other entries are unchanged |
| Proxies.AugAssignUnaffectedByFix | src/akiradb/model/proxies.py:46-48 | on the in-place path, the as-written set gives the same instance as the corrected one, so the `+=` result is kept |
| Relations.ToCypher | src/akiradb/model/relations.py:61-63 | a bag without fields gives the empty text; a one-field bag gives exactly `name: repr(value)` |
| Relations.ToCypherAppend | src/akiradb/model/relations.py:61-63 | one more field appends a comma and its `name: repr(value)` entry to the text of a non-empty bag |
| Relations.BagReadsBack | src/akiradb/model/relations.py:61-63 | a bag with no fields gives empty text; otherwise, when no name or value text holds a comma, the text splits back into one `name: repr` entry per field, in field order |
| Relations.LinkStatement | src/akiradb/model/relations.py:19-25 | AttributeError exactly when an endpoint has no store identifier; otherwise the statement embeds both identifiers in quotes, the relation name, and the bag text or empty braces |
| Relations.LinkIdsReadBack | src/akiradb/model/relations.py:21-22 | when the identifiers hold no single quote, the quoted identifiers read back from the statement are the source's and then the target's |
| Relations.EmptyBagLikeNone | src/akiradb/model/relations.py:24 | a link without properties and one with an empty bag run the same statement |
| Relations.ManyAdd | src/akiradb/model/relations.py:39-40 | the element is appended at the end; earlier elements and the header are unchanged |
| Relations.ManyAddAllAppends | src/akiradb/model/relations.py:39-40 | a run of `add` calls lists the new elements after the earlier ones, in call order |
| Relations.OneSet | src/akiradb/model/relations.py:48-49 | the held element becomes the argument; the header is unchanged |
| Relations.OneSetLastWins | src/akiradb/model/relations.py:48-49 | of two `set` calls, only the last one shows |
| Relations.LinksFor | src/akiradb/model/relations.py:75-80 | the links one `add` queues: none without a source, one without the bidirectional flag, two with it; each carries the relation name and the given bag; the first runs source→element and the second, if any, element→source |
| Relations.ManyWithPropertiesAdd | src/akiradb/model/relations.py:74-84 | elements and bags each grow by one and stay paired, so the edge list gains `(element, bag)`; the owner's queue gains exactly the links `LinksFor` lists: source→element first, then element→source on a bidirectional relation |
| Relations.ManyWithPropertiesAddAllPairs | src/akiradb/model/relations.py:74-84 | a run of `add` calls keeps the lists paired, appends the edges in call order, leaves the header alone, and queues each call's links in call order |
| Relations.AllLinksCount | src/akiradb/model/relations.py:75-80 | a run of n `add` calls queues 0, n or 2n links: no source, one-way, or bidirectional |
| Relations.MirrorLinkSwapsIds | src/akiradb/model/relations.py:76-80 | the two links of a bidirectional `add` quote the same identifiers, swapped |
| Relations.OneWithPropertiesSet | src/akiradb/model/relations.py:92-94 | the element and the bag are replaced together |
| Relations.OneWithPropertiesSetLastWins | src/akiradb/model/relations.py:92-94 | of two `set` calls, only the last element and bag show |
| Relations.RelationMro | src/akiradb/model/relations.py:11-87 | the class hierarchy of every relation class includes `akiradb.model.relations.Relation` |
| BaseModel.Classification | src/akiradb/model/base_model.py:40 | relation objects are classed as relations; recorders and built-in values as properties; any other object is a relation if and only if its class is `Relation` or has `Relation` among its base classes |
| BaseModel.SplitPropertiesAndRelationships | src/akiradb/model/base_model.py:36-45 | the two halves' sizes add up to the number of attributes |
| BaseModel.SplitClassifies | src/akiradb/model/base_model.py:36-45 | every attribute lands in exactly one half: relations if and only if `Relation` is in its class hierarchy, properties otherwise, with names and values unchanged |
| BaseModel.SplitKeepsOrder | src/akiradb/model/base_model.py:36-45 | both halves keep attribute order: the split equals the front-to-back reading that keeps each attribute the test sends to that half |
| BaseModel.SplitPartitions | src/akiradb/model/base_model.py:36-45 | with distinct attribute names, the two halves' names are disjoint and together are all the names |
| BaseModel.SplitIgnoresRelation | src/akiradb/model/base_model.py:39-43 | a relation attribute anywhere in the instance leaves the properties and their order unchanged |
| BaseModel.TransformPropertiesToCypher | src/akiradb/model/base_model.py:33-34 | the text is the comma-join of `name: repr(value)` in order; no properties give the empty string |
| BaseModel.CreateAsWritten | src/akiradb/model/base_model.py:24-28 | as written, no statement reaches the database and the call raises TypeError |
| BaseModel.CreateAsWrittenCreatesNothing | src/akiradb/model/base_model.py:24-28 | counterexample: for every instance the as-written `create` returns no instance and never commits |
| BaseModel.Create | src/akiradb/model/base_model.py:24-28 | corrected: runs `{cypher} create (:<qualname> {<bag>});`, whose bag lists the non-relation attributes in attribute order, then `commit;`, and returns the instance unchanged |
| BaseModel.CreateListsProperties | src/akiradb/model/base_model.py:24-26 | the create statement's bag splits into one `name: repr` entry per non-relation attribute, in attribute order, and is empty when there are none |
| BaseModel.Save | src/akiradb/model/base_model.py:30-31 | changes nothing: the queued links stay pending |

## Left out

- Store I/O, the async connection and transactions are not modelled; a call against the database is the list of statements it runs and its outcome. A link is a queued record, and its statement is a function of that record.
- `database_connection.py`, the psycopg loaders and dumpers, and the type aliases are not modelled. These files are I/O or adapters.
- Python runtime reflection is not modelled. This covers `MetaModel`, `MetaProperties`, the `relation()` field factory and `__dataclass_transform__`. Hydration's field list and property names, and the instance's attributes, are parameters instead.
- The final `model_cls(**properties)` call of hydration is not modelled. It runs user constructors. The model stops at the keyword arguments.
- `date.fromtimestamp`, `datetime.fromtimestamp` and `isoformat` are not modelled. The first two depend on the local time zone and on the platform's timestamp range, so they are function parameters that may fail (ValueError or OverflowError past year 9999). `isoformat` is calendar formatting; a date value carries its ISO, `str` and `repr` texts.
- Utils.NormalizeValueCases: a truthy value of a date field that is neither an integer nor a string nor a date (a float, say) gives `OutsideModel`, although Python's `//` and `fromtimestamp` accept a float; floats are opaque in this model.
- Floats, bytes and other objects are opaque: their `repr`, `str` and truthiness are data. Arithmetic on them gives `OutsideModel`.
- `repr` of non-ASCII non-printable characters is not modelled. They are kept verbatim, whereas CPython escapes every character that `str.isprintable()` rejects (such as U+00A0, U+200B, U+2028 and unassigned code points) as `\xNN`, `\uNNNN` or `\UNNNNNNNN`. Doing this would need the Unicode character database.
- Object aliasing is not modelled. A recorder or bag shared by two places is a value in each, so a mutation through one alias is not seen through the other.
- The change list entries are left out, because the source never creates one.
- What the class holds under a property name is either the descriptor itself or a plain default value; the code that installs the descriptor is not part of this model.
- The not-connected check of `execute` (src/akiradb/database_connection.py:30-31) is not modelled; the corrected `create` assumes a connection.
- `_invert` is kept only as the inverse relation's name, because no modelled code reads it.
- The `create_in_db` parameter of `ManyWithProperties.add` is left out, because it is unused.
- Reflected operators (`3 < prop`) are left out, because Python's operator dispatch is not part of the modelled code.
- A store identifier is the `str` of `_rid`, looked up when the statement is built. A missing one is an AttributeError.

## Findings

| source | as written | input that shows it | evidently intended | confidence | as-written member | corrected member |
|---|---|---|---|---|---|---|
| src/akiradb/model/proxies.py:45-48 | when the instance already has a recorder, assigning any recorder is silently ignored | `a.name = b.name` with `a.name == "A"` and `b.name == "B"` leaves `a.name == "A"` | the assigned recorder's value is stored; skipping a recorder was meant only for the `+=` result, which is the same recorder | not executed | Proxies.ForeignRecorderAssignmentIgnored | Proxies.SetThenGet |
| src/akiradb/model/base_model.py:26-27 | `await self._database_connection.execute(...)`, but `execute` is an asynchronous context manager (src/akiradb/database_connection.py:28-35), so the call runs nothing and the `await` raises TypeError | any instance: `await m.create()` raises before any statement runs, and the node is never created | enter `execute` with `async with`, as `commit` does (src/akiradb/database_connection.py:60-61), so both statements run and the instance is returned | not executed | BaseModel.CreateAsWritten | BaseModel.Create |
| src/akiradb/model/proxies.py:49-50 | when the instance has no recorder yet, an assigned recorder is wrapped in a new recorder | assigning another instance's property that holds None: the literal renderer unwraps one level and renders `None` instead of `null` | a recorder stands for its value, so the new recorder holds that value | not executed | Utils.NestedRecorderRendersNone | Utils.SetPreservesLiteral |
