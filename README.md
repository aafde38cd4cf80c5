# django-actions-logger: the audit-log manager, in Dafny

This project models the core of `actionslog/models.py`, the audit log of a Django
application. Each `LogAction` row records an action (create, view, change, delete)
done to some model instance. The row holds the instance's content type, its key,
its text form, the acting user, extra information and a serialized change set.

The database is replaced by an in-memory table. `Manager.LogActionManager` is a
class whose `entries` field holds the rows in creation order. `nextId` is the next
automatic primary key. Its invariant `Valid()` says that row ids are distinct and
all below `nextId`. The model covers:

- **Creating a row** (`CreateLogAction`). Defaults from the instance fill only the
  keyword arguments the caller left out, as `setdefault` does. A CREATE action first
  removes stale rows for a reused key: the rows with the same content type and
  numeric id, or, when there are none, the rows with the same content type and text key.
  The method is proved against the specification functions `WithDefaults`, `NewEntry`
  and `AfterCreate`. Lemmas state what those functions promise.
- **Queries** (`GetForModel`, `GetForObjects`). These are filters over the table. Each
  returns rows whose ids are distinct, which models `.distinct()`.
- **Primary keys** (`PkValue`). A key that is itself an instance is followed until a
  plain value is reached. Instances form a recursive datatype, so every chain is finite.
- **Derived views of a row**: `ToString` (`__str__`), `ChangesDict` (`changes_dict`)
  and the loop of `changes_str` (`ChangesStr`), with `Text.Join` standing for Python's
  `str.join`.

The JSON reader is a parameter `parse: string -> Option<ChangeMap>`. `None` means the
text does not read as a change set. A change set is a sequence of
(field, old value, new value) in the order the mapping yields them.

The `object_pk` column is text, so an integer key is stored as `str(pk)`. `Text.IntText`
renders it, and `Text.IntTextRoundTrip` proves that nothing is lost.

Action codes follow the class constants of `models.py` (CREATE=10, VIEW=15, CHANGE=20,
DELETE=30). The deduplication at `models.py:44` compares against these. A later migration,
`actionslog/migrations/0002_auto_20171002_1803.py:18`, widens the column's choices to twelve
codes (create=100 up to error=1000), but the code compares with `CREATE = 10`
(`models.py:107`, `:44`), so the model uses the class constants.

## Model

| member | source | states |
|---|---|---|
| LogActions.ActionFromCode | actionslog/models.py:107-117 | the choice found for a code has that code; no choice has a code that finds none |
| LogActions.ActionCodeRoundTrip | actionslog/models.py:112-117 | every declared choice is recovered from its stored code |
| LogActions.PkValue | actionslog/models.py:88-101 | the key found is the value held at the end of the chain of key references |
| LogActions.PkValueFollowsRefs | actionslog/models.py:95-101 | `_get_pk_value` gives the value held by the first instance, along the chain of key references, whose key is not itself an instance; every earlier instance on the chain holds a reference |
| LogActions.PkOf | actionslog/models.py:27-28 | with no instance the key is absent (corrected behaviour) |
| LogActions.PkValueAsWritten | actionslog/models.py:95 | with an instance it gives the same key as the corrected `PkOf` |
| LogActions.NoInstanceRaisesAsWritten | actionslog/models.py:28 | as written, a call with no instance raises where the intended behaviour gives no key |
| LogActions.LogAction.ToString | actionslog/models.py:147-148 | the summary is "Logged " followed by the object's text form ("None" when missing) |
| LogActions.LogAction.ChangesDict | actionslog/models.py:150-158 | stored text that does not parse gives the empty change set; otherwise the parsed one |
| LogActions.LogAction.ChangesStr | actionslog/models.py:160-183 | the loop builds one `field+colon+old+arrow+new` piece per field in order and joins them with `separator` |
| LogActions.Piece | actionslog/models.py:174-180 | one field's text opens with the field name and the colon, then the old value, and closes with the arrow and the new value |
| LogActions.Pieces | actionslog/models.py:171-181 | one piece per field of the change set, in the change set's order |
| LogActions.ChangesTextEmpty | actionslog/models.py:155-158 | an empty or unparseable change set formats as "" |
| LogActions.ChangesTextInOrder | actionslog/models.py:171-183 | the k-th field's piece stands unchanged at its place in the text, followed by the separator unless it is last, and the text ends right after the last piece |
| LogActions.DefaultFormatExample | actionslog/models.py:161 | with the default colon, arrow and separator, two fields format as "name: Alice → Bob; age: 30 → 31" |
| Text.JoinPieceAt | actionslog/models.py:183 | `separator.join` keeps every piece, in order, with the separator between neighbours |
| Text.JoinLayout | actionslog/models.py:183 | the joined text holds each piece at its offset, the separator after every piece but the last, and ends right after the last piece |
| Text.IntTextRoundTrip | actionslog/models.py:123-124 | the text stored in `object_pk` for an integer key reads back as that integer |
| Manager.KeyText | actionslog/models.py:32 | `object_pk` holds the text key itself, the decimal text of an integer key, and NULL exactly for a missing key |
| Manager.SetDefault | actionslog/models.py:31-40 | a keyword the caller gave is kept; a missing one takes the default |
| Manager.WithDefaults | actionslog/models.py:31-40 | without an instance the keywords are unchanged; with one, no given keyword is overwritten, only the five keywords an instance supplies can be added, and content type, text key and text form are always present |
| Manager.NewEntry | actionslog/models.py:50 | the new row has the given id; every column the caller did not give is NULL, or the empty text for `changes` |
| Manager.CallerValuesWin | actionslog/models.py:31-40 | every keyword the caller gives reaches the new row unchanged |
| Manager.InstanceDefaults | actionslog/models.py:31-40 | left-out columns take the instance's content type, text form and extra information; `object_pk` always takes the key, `object_id` takes it exactly when it is an integer |
| Manager.NoInstanceTakesOnlyOverrides | actionslog/models.py:30-50 | with no instance nothing is derived and nothing is removed: the bare row is appended |
| Manager.Survivors | actionslog/models.py:44-48 | the deletion keeps a subset of the rows and every row of another content type |
| Manager.AfterCreate | actionslog/models.py:44-50 | the table after a create ends with the new row, grows by at most one, and every earlier row was already in it |
| Manager.OnlyCreateChoiceRemoves | actionslog/models.py:44 | a create removes rows only when an instance was given and the stored action decodes to the CREATE choice |
| Manager.NonCreateOnlyAppends | actionslog/models.py:44-50 | a non-CREATE action removes no row and the table grows by exactly one |
| Manager.CreateLeavesOnlyNewForId | actionslog/models.py:44-50 | after a CREATE with a numeric id, the new row is the only row with its content type and id |
| Manager.CreateDropsSameTextKey | actionslog/models.py:47-50 | a CREATE without a numeric id keeps exactly the earlier rows that do not share its content type and text key, in order |
| Manager.CreateKeepsUnrelatedRows | actionslog/models.py:44-48 | a row sharing neither the numeric id nor the text key of the new row's content type survives |
| Manager.CreateLeavesOtherTypes | actionslog/models.py:45-48 | the rows of every other content type are unchanged, in order |
| Manager.LogActionManager.CreateLogAction | actionslog/models.py:17-50 | keeps the table invariant; the new row and the new table are those the specification functions give |
| Manager.LogActionManager.DeleteStale | actionslog/models.py:45-48 | keeps the table invariant; removes the rows with the content type and numeric id when any exist, and otherwise those with the content type and text key |
| Manager.LogActionManager.GetForModel | actionslog/models.py:53-67 | a non-model class gives no rows; otherwise exactly the rows of its content type, each once |
| Manager.LogActionManager.GetForObjects | actionslog/models.py:69-86 | a non-query-set or empty query set gives no rows; otherwise exactly the rows of its content type whose numeric id (integer keys) or text key (other keys) is one of its objects' keys, each once |
| Manager.PrimaryKeys | actionslog/models.py:81 | the key column of the query set in its order: the i-th key is the i-th object's key |
| Manager.MatchesObjects | actionslog/models.py:83-86 | a selected row has the query set's content type and a numeric id (integer keys) or a text key (other keys) |
| QuerySets.Filter | actionslog/models.py:84-86 | the filtered rows are exactly the rows that pass the condition, and never more than the table holds |
| Manager.ObjectsMatch | actionslog/models.py:80-86 | the key sets built from `values_list` hold exactly the keys of the query set's objects |
| Manager.FilterKeepsIdsDistinct | actionslog/models.py:84 | a filtered table of distinct rows has distinct rows, as `.distinct()` promises |

## Left out

- The ORM, SQL, `exists()` and `count()`: the table is a sequence, and filters keep table order.
- Default ordering by `-created_at`: queries return rows in creation order, which is the reverse.
- `created_at`: it is set from the server clock.
- The content-type registry: an instance and a model class carry their content-type id. Proxy models are not modelled.
- `on_delete` behaviour of `user` (SET_NULL) and `content_type` (CASCADE): this is a side effect in other tables.
- Transactions around the delete-then-insert of a create: this is a concurrency concern.
- Translation of `"Logged {repr:s}"` and of the choice labels, and the `smart_text` encoding: the text form of an instance is given as a string.
- Field options (`verbose_name`, `db_index`, `blank`, `null`), the 255-character limit of `object_pk`, and the range of a positive small integer for `action`.
- The 64-bit range of `object_id`, a `BigIntegerField` (`models.py:121`): `objectId` and `IntKey` hold unbounded integers.
- JSON reading and writing: `parse` is opaque, and no serializer is modelled. So the round trip of writing a change set and reading it back is not stated.
- LogActions.LogAction.ChangesDict: JSON that reads as something other than a mapping of fields to pairs of text values is not modelled. On some of it `changes_str` raises: a value that is not a mapping, values that are not text, or one-element values. On the rest it silently uses the first two elements: `{"name": "ab"}` formats as `name: a → b`, and a list of three or more strings uses its first two.
- LogActions.LogAction.ToString: a missing text form renders as "None", as Python 2 formats it. Python 3 would raise.
- Key types other than integers and text (UUIDs, for example), and `bool` counting as an integer.
- Manager.LogActionManager.GetForObjects: a query set whose keys mix integers and text is not modelled faithfully. In the numeric branch, non-integer keys are ignored where the database would reject them.
- Python 2 dictionary order: the change set's fields come in the order the reader yields them.
- An extra-information method that exists but returns `None` stores the JSON text the reader produces for it.

## Deviations from the source

The code as written cannot run. The model follows the evident intent at each of these places:

- `actionslog/models.py:30` tests `changes is not None`, but `changes` is never defined. The model fills defaults whenever an instance is given.
- `actionslog/models.py:28` calls `_get_pk_value(instance)` before `instance` is checked for `None`. It raises at `actionslog/models.py:95` (see Findings).
- `actionslog/models.py:35`, `:83` and `:173` use `integer_types` and `iteritems`, which are not imported. The model uses an integer test and in-order iteration.
- `actionslog/models.py:44` compares with `is LogEntry.CREATE`, but the class is `LogAction`. The model compares the stored code with `LogAction.CREATE` for equality.
- `actionslog/models.py:50` passes `instance` on to `create(**kwargs)`, which is not a field. The model takes `instance` as a separate argument. The unreachable `return None` at line 51 and the docstring's "`None` if there were no changes" are not modelled: a row is always created.
- `actionslog/models.py:122` and `:132` pass `bank=True` for `blank=True`. `actionslog/models.py:129` uses `settings`, which is not imported. Both are treated as intended: a nullable user id.
- `actionslog/models.py:150` is missing the `@` of `@property`. The model treats `changes_dict` as the property that `changes_str` iterates.
- `actionslog/models.py:160-161` declares `changes_str` as a `@property` whose getter takes `colon`, `arrow` and `separator`. A property getter only ever receives the row, so as written these always take their defaults, and the customisation the docstring promises (`actionslog/models.py:163-165`) cannot happen. `ChangesStr` takes them as arguments, following the docstring; the defaults are `DefaultColon`, `DefaultArrow` and `DefaultSeparator`.

## Findings

| source | as written | input that shows it | evidently intended | confidence | as-written member | corrected member |
|---|---|---|---|---|---|---|
| actionslog/models.py:95 | `_get_pk_value` reads `instance._meta` even when `create_log_action` was called without an instance | `create_log_action(action=...)` with no `instance` keyword | no key is derived, and a bare row with the caller's values is created | high (not executed) | LogActions.NoInstanceRaisesAsWritten | LogActions.PkOf |
