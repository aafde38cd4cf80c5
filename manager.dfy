/**
 * `LogActionManager`: creates log rows, removing stale rows for a reused
 * primary key first, and selects the rows of one model class or of a set of
 * objects. The table is held in memory as a sequence of rows in insertion order.
 */
module Manager {
  import opened Wrappers
  import opened Text
  import opened QuerySets
  import opened LogActions

  /** One keyword argument: left out by the caller, or given (possibly as `None`). */
  datatype Given<T> = Absent | Given(value: T) {

    function GetOr(default: T): T {
      match this
      case Given(v) => v
      case Absent => default
    }
  }

  /** `kwargs.setdefault(name, default)` on one keyword. */
  function SetDefault<T>(arg: Given<T>, default: T): (r: Given<T>)
    ensures arg.Given? ==> r == arg
    ensures arg.Absent? ==> r == Given(default)
  {
    if arg.Given? then arg else Given(default)
  }

  /** The field overrides a caller passes to `create_log_action`, besides `instance`. */
  datatype Overrides = Overrides(
    contentType: Given<Option<ContentTypeId>>,
    objectId: Given<Option<int>>,
    objectPk: Given<Option<string>>,
    objectRepr: Given<Option<string>>,
    objectExtraInfo: Given<Option<JsonText>>,
    user: Given<Option<UserId>>,
    action: Given<Option<int>>,
    actionInfo: Given<Option<JsonText>>,
    changes: Given<string>,
    remoteIp: Given<Option<string>>)

  /** What the `object_pk` text column stores for a key: `str(pk)`, or NULL. */
  function KeyText(k: Key): (r: Option<string>)
    ensures k.TextKey? ==> r == Some(k.s)
    ensures k.IntKey? ==> r.Some? && ParseInt(r.value) == k.n
    ensures r.None? <==> k.NullKey?
  {
    match k
    case IntKey(n) => IntTextRoundTrip(n); Some(IntText(n))
    case TextKey(s) => Some(s)
    case NullKey => None
  }

  /**
   * The keyword arguments after the defaults taken from `instance` are filled in.
   * Without an instance nothing changes. With one, a keyword the caller gave is never
   * overwritten, only the five keywords an instance supplies can be added, and the
   * content type, text key and text form are always present afterwards.
   */
  function WithDefaults(instance: Option<Instance>, kw: Overrides): (r: Overrides)
    ensures instance.None? ==> r == kw
    ensures kw.contentType.Given? ==> r.contentType == kw.contentType
    ensures kw.objectId.Given? ==> r.objectId == kw.objectId
    ensures kw.objectPk.Given? ==> r.objectPk == kw.objectPk
    ensures kw.objectRepr.Given? ==> r.objectRepr == kw.objectRepr
    ensures kw.objectExtraInfo.Given? ==> r.objectExtraInfo == kw.objectExtraInfo
    ensures r.user == kw.user && r.action == kw.action && r.actionInfo == kw.actionInfo
    ensures r.changes == kw.changes && r.remoteIp == kw.remoteIp
    ensures instance.Some? ==> r.contentType.Given? && r.objectPk.Given? && r.objectRepr.Given?
  {
    match instance
    case None => kw
    case Some(obj) =>
      var pk := PkValue(obj);
      kw.(contentType := SetDefault(kw.contentType, Some(obj.contentType)),
          objectPk := SetDefault(kw.objectPk, KeyText(pk)),
          objectRepr := SetDefault(kw.objectRepr, Some(obj.repr)),
          objectId := if pk.IntKey? then SetDefault(kw.objectId, Some(pk.n)) else kw.objectId,
          objectExtraInfo := if obj.extraInfo.Some? then SetDefault(kw.objectExtraInfo, obj.extraInfo)
                             else kw.objectExtraInfo)
  }

  /**
   * `self.create(**kwargs)`: the new row, with the given primary key. A column not
   * given takes its default: NULL, or the empty text for `changes`.
   */
  function NewEntry(id: nat, kw: Overrides): (e: LogAction)
    ensures e.id == id
    ensures kw.contentType.Absent? ==> e.contentType.None?
    ensures kw.objectId.Absent? ==> e.objectId.None?
    ensures kw.objectPk.Absent? ==> e.objectPk.None?
    ensures kw.objectRepr.Absent? ==> e.objectRepr.None?
    ensures kw.objectExtraInfo.Absent? ==> e.objectExtraInfo.None?
    ensures kw.user.Absent? ==> e.user.None?
    ensures kw.action.Absent? ==> e.action.None?
    ensures kw.actionInfo.Absent? ==> e.actionInfo.None?
    ensures kw.changes.Absent? ==> e.changes == ""
    ensures kw.remoteIp.Absent? ==> e.remoteIp.None?
  {
    LogAction(
      id := id,
      contentType := kw.contentType.GetOr(None),
      objectId := kw.objectId.GetOr(None),
      objectPk := kw.objectPk.GetOr(None),
      objectRepr := kw.objectRepr.GetOr(None),
      objectExtraInfo := kw.objectExtraInfo.GetOr(None),
      user := kw.user.GetOr(None),
      action := kw.action.GetOr(None),
      actionInfo := kw.actionInfo.GetOr(None),
      changes := kw.changes.GetOr(""),
      remoteIp := kw.remoteIp.GetOr(None))
  }

  /** Some row has this content type and numeric object id. */
  predicate HasNumericId(rows: seq<LogAction>, ct: Option<ContentTypeId>, id: Option<int>) {
    exists i | 0 <= i < |rows| :: rows[i].contentType == ct && rows[i].objectId == id
  }

  /** The rows without this content type and numeric object id. */
  function WithoutNumericId(rows: seq<LogAction>, ct: Option<ContentTypeId>, id: Option<int>): seq<LogAction> {
    Filter(rows, (x: LogAction) => !(x.contentType == ct && x.objectId == id))
  }

  /** The rows without this content type and text object key. */
  function WithoutTextKey(rows: seq<LogAction>, ct: Option<ContentTypeId>, pk: Option<string>): seq<LogAction> {
    Filter(rows, (x: LogAction) => !(x.contentType == ct && x.objectPk == pk))
  }

  /**
   * The rows left after the deduplication step for new row `e`. It only runs when an
   * instance was given and `e` is a CREATE action: the rows with `e`'s content type and
   * numeric id go when there are any, and otherwise those with its content type and text key.
   */
  function Survivors(rows: seq<LogAction>, e: LogAction, hasInstance: bool): (r: seq<LogAction>)
    ensures |r| <= |rows|
    ensures forall x :: x in r ==> x in rows
    ensures forall x :: x in rows && x.contentType != e.contentType ==> x in r
  {
    if !hasInstance || e.action != Some(CREATE) then rows
    else if e.objectId.Some? && HasNumericId(rows, e.contentType, e.objectId) then
      WithoutNumericId(rows, e.contentType, e.objectId)
    else WithoutTextKey(rows, e.contentType, e.objectPk)
  }

  /** The table after `create_log_action` adds row `e`. */
  function AfterCreate(rows: seq<LogAction>, e: LogAction, hasInstance: bool): (r: seq<LogAction>)
    ensures 1 <= |r| <= |rows| + 1 && r[|r| - 1] == e
    ensures forall i :: 0 <= i < |r| - 1 ==> r[i] in rows
  {
    Survivors(rows, e, hasInstance) + [e]
  }

  /** The rows of one content type, in table order. */
  function OfType(rows: seq<LogAction>, ct: Option<ContentTypeId>): seq<LogAction> {
    Filter(rows, (x: LogAction) => x.contentType == ct)
  }

  /** No two rows share a primary key. */
  predicate DistinctIds(rows: seq<LogAction>) {
    forall i, j :: 0 <= i < j < |rows| ==> rows[i].id != rows[j].id
  }

  /** Any filter of a table whose keys are distinct has distinct keys. */
  lemma {:induction false} FilterKeepsIdsDistinct(rows: seq<LogAction>, keep: LogAction -> bool)
    ensures DistinctIds(rows) ==> DistinctIds(Filter(rows, keep))
  {
    if |rows| > 0 && DistinctIds(rows) {
      var tail := rows[1..];
      FilterKeepsIdsDistinct(tail, keep);
      if keep(rows[0]) {
        var r := Filter(rows, keep);
        var rest := Filter(tail, keep);
        assert r == [rows[0]] + rest;
        forall j | 0 < j < |r|
          ensures r[0].id != r[j].id
        {
          assert r[j] == rest[j - 1];
          assert rest[j - 1] in tail;
        }
      }
    }
  }

  /** The argument of `get_for_model`: a model class (with its content type) or any other class. */
  datatype ModelArg = ModelClass(contentType: ContentTypeId) | OtherClass

  /** The argument of `get_for_objects`: a query set over one model class, or anything else. */
  datatype QueryArg = QuerySet(contentType: ContentTypeId, objects: seq<Instance>) | NotAQuerySet

  /** `values_list(pk_name, flat=True)`: the primary-key column of the query set's rows. */
  function PrimaryKeys(objects: seq<Instance>): (keys: seq<Key>)
    ensures |keys| == |objects|
    ensures forall i :: 0 <= i < |objects| ==> keys[i] == PkValue(objects[i])
  {
    seq(|objects|, i requires 0 <= i < |objects| => PkValue(objects[i]))
  }

  /** The integer keys among `keys`. */
  function IntKeys(keys: seq<Key>): set<int> {
    set k | k in keys && k.IntKey? :: k.n
  }

  /** The text column values of `keys`. */
  function TextKeys(keys: seq<Key>): set<string> {
    set k | k in keys && KeyText(k).Some? :: KeyText(k).value
  }

  /** The condition `get_for_objects` selects rows by, once it has the keys. */
  predicate MatchesObjects(x: LogAction, ct: ContentTypeId, keys: seq<Key>): (r: bool)
    requires |keys| > 0
    ensures r ==> x.contentType == Some(ct)
    ensures r ==> if keys[0].IntKey? then x.objectId.Some? else x.objectPk.Some?
  {
    && x.contentType == Some(ct)
    && if keys[0].IntKey? then x.objectId.Some? && x.objectId.value in IntKeys(keys)
       else x.objectPk.Some? && x.objectPk.value in TextKeys(keys)
  }

  class LogActionManager {
    /** The log table, in the order its rows were created. */
    var entries: seq<LogAction>
    /** The next automatic primary key. */
    var nextId: nat

    ghost predicate Valid()
      reads this
    {
      && DistinctIds(entries)
      && forall x :: x in entries ==> x.id < nextId
    }

    constructor ()
      ensures Valid() && entries == [] && nextId == 0
    {
      entries := [];
      nextId := 0;
    }

    /**
     * `create_log_action`: fills in the arguments the caller left out from `instance`,
     * removes stale rows for a reused primary key when this is a CREATE action, then
     * appends and returns the new row.
     */
    method CreateLogAction(instance: Option<Instance>, overrides: Overrides) returns (entry: LogAction)
      requires Valid()
      modifies this
      ensures Valid()
      ensures entry == NewEntry(old(nextId), WithDefaults(instance, overrides))
      ensures entries == AfterCreate(old(entries), entry, instance.Some?)
      ensures nextId == old(nextId) + 1
    {
      var kw := overrides;
      var pk := PkOf(instance);
      if instance.Some? {
        var obj := instance.value;
        kw := kw.(contentType := SetDefault(kw.contentType, Some(obj.contentType)));
        kw := kw.(objectPk := SetDefault(kw.objectPk, KeyText(pk)));
        kw := kw.(objectRepr := SetDefault(kw.objectRepr, Some(obj.repr)));
        if pk.IntKey? {
          kw := kw.(objectId := SetDefault(kw.objectId, Some(pk.n)));
        }
        if obj.extraInfo.Some? {
          kw := kw.(objectExtraInfo := SetDefault(kw.objectExtraInfo, obj.extraInfo));
        }
        if kw.action.GetOr(None) == Some(CREATE) {
          DeleteStale(kw.contentType.GetOr(None), kw.objectId.GetOr(None), kw.objectPk.GetOr(Some("")));
        }
      }
      assert kw == WithDefaults(instance, overrides);
      entry := NewEntry(nextId, kw);
      entries := entries + [entry];
      nextId := nextId + 1;
    }

    /**
     * The deletion step of `create_log_action`: the rows with this content type and
     * numeric id when there are any, and otherwise those with this content type and text key.
     */
    method DeleteStale(ct: Option<ContentTypeId>, id: Option<int>, pk: Option<string>)
      requires Valid()
      modifies this
      ensures Valid() && nextId == old(nextId)
      ensures entries == if id.Some? && HasNumericId(old(entries), ct, id) then WithoutNumericId(old(entries), ct, id)
                         else WithoutTextKey(old(entries), ct, pk)
    {
      if id.Some? && HasNumericId(entries, ct, id) {
        FilterKeepsIdsDistinct(entries, (x: LogAction) => !(x.contentType == ct && x.objectId == id));
        entries := WithoutNumericId(entries, ct, id);
      } else {
        FilterKeepsIdsDistinct(entries, (x: LogAction) => !(x.contentType == ct && x.objectPk == pk));
        entries := WithoutTextKey(entries, ct, pk);
      }
    }

    /**
     * `get_for_model`: the rows logged for objects of class `model`; none when
     * `model` is not a model class.
     */
    function GetForModel(model: ModelArg): (r: seq<LogAction>)
      reads this
      ensures model.OtherClass? ==> r == []
      ensures model.ModelClass? ==>
        forall x :: x in r <==> x in entries && x.contentType == Some(model.contentType)
      ensures Valid() ==> DistinctIds(r)
    {
      if model.OtherClass? then []
      else
        FilterKeepsIdsDistinct(entries, (x: LogAction) => x.contentType == Some(model.contentType));
        OfType(entries, Some(model.contentType))
    }

    /**
     * `get_for_objects`: the rows logged for the objects of query set `q`, each once,
     * matched on the numeric id when the keys are integers and on the text key
     * otherwise; none when `q` is not a query set or is empty.
     */
    function GetForObjects(q: QueryArg): (r: seq<LogAction>)
      reads this
      ensures q.NotAQuerySet? || |q.objects| == 0 ==> r == []
      ensures q.QuerySet? && |q.objects| > 0 && PkValue(q.objects[0]).IntKey? ==>
        forall x :: x in r <==>
          && x in entries
          && x.contentType == Some(q.contentType)
          && x.objectId.Some?
          && exists o :: o in q.objects && PkValue(o) == IntKey(x.objectId.value)
      ensures q.QuerySet? && |q.objects| > 0 && !PkValue(q.objects[0]).IntKey? ==>
        forall x :: x in r <==>
          && x in entries
          && x.contentType == Some(q.contentType)
          && x.objectPk.Some?
          && exists o :: o in q.objects && KeyText(PkValue(o)) == x.objectPk
      ensures Valid() ==> DistinctIds(r)
    {
      if q.NotAQuerySet? || |q.objects| == 0 then []
      else
        var keys := PrimaryKeys(q.objects);
        var keep := (x: LogAction) => MatchesObjects(x, q.contentType, keys);
        ObjectsMatch(q.contentType, q.objects);
        FilterKeepsIdsDistinct(entries, keep);
        Filter(entries, keep)
    }
  }

  /** The key sets `get_for_objects` builds hold exactly the keys of its objects. */
  lemma ObjectsMatch(ct: ContentTypeId, objects: seq<Instance>)
    requires |objects| > 0
    ensures forall x: LogAction :: PkValue(objects[0]).IntKey? ==>
      (MatchesObjects(x, ct, PrimaryKeys(objects)) <==>
        x.contentType == Some(ct) && x.objectId.Some?
        && exists o :: o in objects && PkValue(o) == IntKey(x.objectId.value))
    ensures forall x: LogAction :: !PkValue(objects[0]).IntKey? ==>
      (MatchesObjects(x, ct, PrimaryKeys(objects)) <==>
        x.contentType == Some(ct) && x.objectPk.Some?
        && exists o :: o in objects && KeyText(PkValue(o)) == x.objectPk)
  {
    var keys := PrimaryKeys(objects);
    forall x: LogAction | x.objectId.Some? && x.objectId.value in IntKeys(keys)
      ensures exists o :: o in objects && PkValue(o) == IntKey(x.objectId.value)
    {
      var k :| k in keys && k.IntKey? && k.n == x.objectId.value;
      var i :| 0 <= i < |keys| && keys[i] == k;
      assert objects[i] in objects && PkValue(objects[i]) == k;
    }
    forall x: LogAction, o | x.objectId.Some? && o in objects && PkValue(o) == IntKey(x.objectId.value)
      ensures x.objectId.value in IntKeys(keys)
    {
      var i :| 0 <= i < |objects| && objects[i] == o;
      assert keys[i] == IntKey(x.objectId.value);
    }
    forall x: LogAction | x.objectPk.Some? && x.objectPk.value in TextKeys(keys)
      ensures exists o :: o in objects && KeyText(PkValue(o)) == x.objectPk
    {
      var k :| k in keys && KeyText(k).Some? && KeyText(k).value == x.objectPk.value;
      var i :| 0 <= i < |keys| && keys[i] == k;
      assert objects[i] in objects && KeyText(PkValue(objects[i])) == x.objectPk;
    }
    forall x: LogAction, o | x.objectPk.Some? && o in objects && KeyText(PkValue(o)) == x.objectPk
      ensures x.objectPk.value in TextKeys(keys)
    {
      var i :| 0 <= i < |objects| && objects[i] == o;
      assert keys[i] in keys && KeyText(keys[i]) == x.objectPk;
    }
  }

  /** Each keyword the caller gives ends up in the new row unchanged, instance or not. */
  lemma CallerValuesWin(id: nat, instance: Option<Instance>, kw: Overrides)
    ensures var e := NewEntry(id, WithDefaults(instance, kw));
      && (kw.contentType.Given? ==> e.contentType == kw.contentType.value)
      && (kw.objectId.Given? ==> e.objectId == kw.objectId.value)
      && (kw.objectPk.Given? ==> e.objectPk == kw.objectPk.value)
      && (kw.objectRepr.Given? ==> e.objectRepr == kw.objectRepr.value)
      && (kw.objectExtraInfo.Given? ==> e.objectExtraInfo == kw.objectExtraInfo.value)
      && (kw.user.Given? ==> e.user == kw.user.value)
      && (kw.action.Given? ==> e.action == kw.action.value)
      && (kw.actionInfo.Given? ==> e.actionInfo == kw.actionInfo.value)
      && (kw.changes.Given? ==> e.changes == kw.changes.value)
      && (kw.remoteIp.Given? ==> e.remoteIp == kw.remoteIp.value)
  {
  }

  /**
   * What an instance supplies for the columns the caller left out: its content type,
   * its text form, its extra information when it offers some, its key as text always,
   * and its key as a number exactly when the key is an integer.
   */
  lemma InstanceDefaults(id: nat, obj: Instance, kw: Overrides)
    ensures var e := NewEntry(id, WithDefaults(Some(obj), kw));
            var pk := PkValue(obj);
      && (kw.contentType.Absent? ==> e.contentType == Some(obj.contentType))
      && (kw.objectRepr.Absent? ==> e.objectRepr == Some(obj.repr))
      && (kw.objectPk.Absent? ==> e.objectPk == KeyText(pk))
      && (kw.objectId.Absent? ==> (e.objectId.Some? <==> pk.IntKey?))
      && (kw.objectId.Absent? && pk.IntKey? ==> e.objectId == Some(pk.n))
      && (kw.objectExtraInfo.Absent? ==> e.objectExtraInfo == obj.extraInfo)
  {
  }

  /** Without an instance nothing is derived: the row holds the caller's values and column defaults. */
  lemma NoInstanceTakesOnlyOverrides(id: nat, kw: Overrides, rows: seq<LogAction>)
    ensures var e := NewEntry(id, WithDefaults(None, kw));
      && e.contentType == kw.contentType.GetOr(None)
      && e.objectId == kw.objectId.GetOr(None)
      && e.objectPk == kw.objectPk.GetOr(None)
      && e.objectRepr == kw.objectRepr.GetOr(None)
      && e.objectExtraInfo == kw.objectExtraInfo.GetOr(None)
      && AfterCreate(rows, e, false) == rows + [e]
  {
  }

  /**
   * A create removes rows only when an instance was given and the stored action
   * decodes to the CREATE choice.
   */
  lemma OnlyCreateChoiceRemoves(rows: seq<LogAction>, e: LogAction, hasInstance: bool)
    ensures |Survivors(rows, e, hasInstance)| < |rows| ==>
      hasInstance && e.action.Some? && ActionFromCode(e.action.value) == Some(Create)
  {
    if hasInstance && e.action == Some(CREATE) {
      ActionCodeRoundTrip(Create);
    }
  }

  /** A row that is not a CREATE action, or one made without an instance, removes nothing. */
  lemma NonCreateOnlyAppends(rows: seq<LogAction>, e: LogAction, hasInstance: bool)
    requires !hasInstance || e.action != Some(CREATE)
    ensures AfterCreate(rows, e, hasInstance) == rows + [e]
    ensures |AfterCreate(rows, e, hasInstance)| == |rows| + 1
  {
  }

  /**
   * After a CREATE for an instance whose row has a numeric id, the new row is the
   * only row of its content type with that id.
   */
  lemma CreateLeavesOnlyNewForId(rows: seq<LogAction>, e: LogAction)
    requires e.action == Some(CREATE) && e.objectId.Some?
    ensures var r := AfterCreate(rows, e, true);
      && r[|r| - 1] == e
      && |r| <= |rows| + 1
      && forall i :: 0 <= i < |r| && r[i].contentType == e.contentType && r[i].objectId == e.objectId ==> i == |r| - 1
  {
    var r := AfterCreate(rows, e, true);
    var survivors := Survivors(rows, e, true);
    forall i | 0 <= i < |r| - 1
      ensures !(r[i].contentType == e.contentType && r[i].objectId == e.objectId)
    {
      assert r[i] == survivors[i];
      assert survivors[i] in survivors;
      if !HasNumericId(rows, e.contentType, e.objectId) {
        assert r[i] in rows;
      }
    }
  }

  /**
   * A CREATE for an instance without a numeric id removes exactly the earlier rows
   * of its content type with its text key, and keeps the others in their order.
   */
  lemma CreateDropsSameTextKey(rows: seq<LogAction>, e: LogAction)
    requires e.action == Some(CREATE) && e.objectId.None?
    ensures var r := AfterCreate(rows, e, true);
      && r == WithoutTextKey(rows, e.contentType, e.objectPk) + [e]
      && forall x :: x in r[..|r| - 1] <==> x in rows && !(x.contentType == e.contentType && x.objectPk == e.objectPk)
  {
    var r := AfterCreate(rows, e, true);
    assert r[..|r| - 1] == WithoutTextKey(rows, e.contentType, e.objectPk);
  }

  /**
   * Deduplication only removes rows of the new row's content type that share its
   * numeric id or its text key; every other row stays.
   */
  lemma CreateKeepsUnrelatedRows(rows: seq<LogAction>, e: LogAction, hasInstance: bool, x: LogAction)
    requires x in rows
    requires !(x.contentType == e.contentType && (x.objectId == e.objectId || x.objectPk == e.objectPk))
    ensures x in AfterCreate(rows, e, hasInstance)
  {
    assert x in Survivors(rows, e, hasInstance);
  }

  /** The rows of any other content type are the same rows, in the same order, after a create. */
  lemma CreateLeavesOtherTypes(rows: seq<LogAction>, e: LogAction, hasInstance: bool, ct: Option<ContentTypeId>)
    requires ct != e.contentType
    ensures OfType(AfterCreate(rows, e, hasInstance), ct) == OfType(rows, ct)
  {
    var ofType := (x: LogAction) => x.contentType == ct;
    var survivors := Survivors(rows, e, hasInstance);
    FilterConcat(survivors, [e], ofType);
    assert Filter([e], ofType) == [];
    if hasInstance && e.action == Some(CREATE) {
      if e.objectId.Some? && HasNumericId(rows, e.contentType, e.objectId) {
        FilterWithin(rows, (x: LogAction) => !(x.contentType == e.contentType && x.objectId == e.objectId), ofType);
      } else {
        FilterWithin(rows, (x: LogAction) => !(x.contentType == e.contentType && x.objectPk == e.objectPk), ofType);
      }
    }
  }
}
