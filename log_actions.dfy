/**
 * The `LogAction` record of the audit log: one row per action done to an
 * object, and its derived views (the display string and the change set).
 * Also the domain objects a row refers to and how their primary key is read.
 */
module LogActions {
  import opened Wrappers
  import opened Text

  /** A row of the content-type registry: identifies one model class. */
  type ContentTypeId = nat
  /** The primary key of a user row. */
  type UserId = nat
  /** The serialized text of a JSON field value. */
  type JsonText = string

  /** The kinds of action the model class declares, with their stored codes. */
  datatype ActionChoice = Create | View | Change | Delete {

    function Code(): int {
      match this
      case Create => 10
      case View => 15
      case Change => 20
      case Delete => 30
    }
  }

  /** `LogAction.CREATE`: the code that triggers deduplication. */
  const CREATE: int := Create.Code()

  /** The choice a stored action code stands for, if any. */
  function ActionFromCode(code: int): (r: Option<ActionChoice>)
    ensures r.Some? ==> r.value.Code() == code
    ensures r.None? ==> forall a: ActionChoice :: a.Code() != code
  {
    if code == 10 then Some(Create)
    else if code == 15 then Some(View)
    else if code == 20 then Some(Change)
    else if code == 30 then Some(Delete)
    else None
  }

  /** No two choices share a code, so every choice reads back from its code. */
  lemma ActionCodeRoundTrip(a: ActionChoice)
    ensures ActionFromCode(a.Code()) == Some(a)
  {
  }

  /** A primary-key value that is not itself a model instance. */
  datatype Key = IntKey(n: int) | TextKey(s: string) | NullKey

  /** What the primary-key attribute of an instance holds: a value, or another instance. */
  datatype PkAttr = Scalar(key: Key) | Ref(target: Instance)

  /**
   * A model instance, as far as the log needs it: the content type of its class,
   * its primary-key attribute, its text form (`smart_text(instance)`) and, when its
   * class has a callable `get_object_extra_info`, what that returns.
   */
  datatype Instance = Instance(contentType: ContentTypeId, pk: PkAttr, repr: string, extraInfo: Option<JsonText>)

  /**
   * `_get_pk_value`: the primary key, following keys that are themselves instances.
   * The key found is the one held at the end of the chain of references.
   */
  function PkValue(inst: Instance): (k: Key)
    ensures Follow(inst, RefDepth(inst)).pk == Scalar(k)
    decreases inst
  {
    match inst.pk
    case Scalar(k) => k
    case Ref(target) => PkValue(target)
  }

  /** How many references lead from `inst` to the instance whose key is a value. */
  function RefDepth(inst: Instance): nat
    decreases inst
  {
    match inst.pk
    case Scalar(_) => 0
    case Ref(target) => 1 + RefDepth(target)
  }

  /** The instance reached from `inst` by following its key reference `steps` times. */
  function Follow(inst: Instance, steps: nat): Instance
    requires steps <= RefDepth(inst)
    decreases steps
  {
    if steps == 0 then inst else Follow(inst.pk.target, steps - 1)
  }

  /**
   * The key `_get_pk_value` gives is the value held by the first instance along the
   * chain of key references whose key is not a reference.
   */
  lemma {:induction false} PkValueFollowsRefs(inst: Instance)
    ensures Follow(inst, RefDepth(inst)).pk.Scalar?
    ensures PkValue(inst) == Follow(inst, RefDepth(inst)).pk.key
    ensures forall k :: 0 <= k < RefDepth(inst) ==> Follow(inst, k).pk.Ref?
    decreases inst
  {
    match inst.pk
    case Scalar(_) =>
    case Ref(target) =>
      PkValueFollowsRefs(target);
      forall k | 0 < k < RefDepth(inst)
        ensures Follow(inst, k) == Follow(target, k - 1)
      {
      }
  }

  /** `_get_pk_value` as it is meant to behave on a missing instance: no key. */
  function PkOf(instance: Option<Instance>): (k: Key)
    ensures instance.None? ==> k == NullKey
  {
    match instance
    case None => NullKey
    case Some(inst) => PkValue(inst)
  }

  /** Python's exceptions, as far as the code written reaches them. */
  datatype PyError = AttributeError(message: string)

  /**
   * `_get_pk_value` as written: it reads `instance._meta` before anything else,
   * so a missing instance raises instead of giving no key.
   */
  function PkValueAsWritten(instance: Option<Instance>): (r: Result<Key>)
    ensures instance.Some? ==> r == Ok(PkOf(instance))
  {
    match instance
    case None => Err(AttributeError("'NoneType' object has no attribute '_meta'"))
    case Some(inst) => Ok(PkValue(inst))
  }

  datatype Result<T> = Ok(value: T) | Err(error: PyError)

  /** With no instance the code as written fails where the intended behaviour gives `NullKey`. */
  lemma NoInstanceRaisesAsWritten()
    ensures PkValueAsWritten(None).Err?
    ensures PkOf(None) == NullKey
  {
  }

  /** One field of a change set: its name, and its value before and after. */
  datatype FieldChange = FieldChange(field: string, oldValue: string, newValue: string)

  /** A change set, in the order its mapping yields its fields. */
  type ChangeMap = seq<FieldChange>

  /** The default separators of `changes_str`. */
  const DefaultColon: string := ": "
  const DefaultArrow: string := " \U{2192} "
  const DefaultSeparator: string := "; "

  /**
   * `field + colon + old + arrow + new`, the text of one field of a change set:
   * it opens with the field name and the colon, the old value follows them, and
   * it closes with the arrow and the new value.
   */
  function Piece(c: FieldChange, colon: string, arrow: string): (r: string)
    ensures var prefix := c.field + colon;
            var suffix := arrow + c.newValue;
      && |r| == |prefix| + |c.oldValue| + |suffix|
      && r[..|prefix|] == prefix
      && r[|prefix|..|prefix| + |c.oldValue|] == c.oldValue
      && r[|r| - |suffix|..] == suffix
  {
    var r := c.field + colon + c.oldValue + arrow + c.newValue;
    assert r == (c.field + colon) + c.oldValue + (arrow + c.newValue);
    r
  }

  /** The text of each field of a change set: one piece per field, in the change set's order. */
  function Pieces(changes: ChangeMap, colon: string, arrow: string): (r: seq<string>)
    ensures |r| == |changes|
    ensures forall i :: 0 <= i < |changes| ==> r[i] == Piece(changes[i], colon, arrow)
  {
    seq(|changes|, i requires 0 <= i < |changes| => Piece(changes[i], colon, arrow))
  }

  /**
   * One row of the log. `id` is the row's automatic primary key; the nullable
   * columns are `Option`s; `changes` is the stored text of the change set.
   */
  datatype LogAction = LogAction(
    id: nat,
    contentType: Option<ContentTypeId>,
    objectId: Option<int>,
    objectPk: Option<string>,
    objectRepr: Option<string>,
    objectExtraInfo: Option<JsonText>,
    user: Option<UserId>,
    action: Option<int>,
    actionInfo: Option<JsonText>,
    changes: string,
    remoteIp: Option<string>)
  {

    /**
     * `__str__`: "Logged " and the object's text form. A missing form is
     * rendered the way Python 2 formats `None`.
     */
    function ToString(): (r: string)
      ensures |r| >= 7 && r[..7] == "Logged "
      ensures objectRepr.Some? ==> r[7..] == objectRepr.value
      ensures objectRepr.None? ==> r[7..] == "None"
    {
      "Logged " + objectRepr.GetOr("None")
    }

    /**
     * `changes_dict`: the stored change set, read by `parse` (the JSON reader);
     * text that does not read as a change set gives the empty one.
     */
    function ChangesDict(parse: string -> Option<ChangeMap>): (r: ChangeMap)
      ensures parse(changes).None? ==> r == []
      ensures parse(changes).Some? ==> r == parse(changes).value
    {
      parse(changes).GetOr([])
    }

    /** What `changes_str` gives: the pieces of the change set joined by `separator`. */
    function ChangesText(parse: string -> Option<ChangeMap>, colon: string, arrow: string, separator: string): string {
      Join(separator, Pieces(ChangesDict(parse), colon, arrow))
    }

    /** `changes_str`: builds the text of each field in turn, then joins them. */
    method ChangesStr(parse: string -> Option<ChangeMap>, colon: string, arrow: string, separator: string)
      returns (s: string)
      ensures s == ChangesText(parse, colon, arrow, separator)
    {
      var changeMap := ChangesDict(parse);
      var substrings: seq<string> := [];
      var i := 0;
      while i < |changeMap|
        invariant 0 <= i <= |changeMap|
        invariant |substrings| == i
        invariant forall k :: 0 <= k < i ==> substrings[k] == Piece(changeMap[k], colon, arrow)
      {
        var c := changeMap[i];
        var substring := c.field + colon + c.oldValue + arrow + c.newValue;
        substrings := substrings + [substring];
        i := i + 1;
      }
      assert substrings == Pieces(changeMap, colon, arrow);
      s := Join(separator, substrings);
    }
  }

  /** A change set that is empty, or that does not read at all, formats as the empty text. */
  lemma ChangesTextEmpty(e: LogAction, parse: string -> Option<ChangeMap>, colon: string, arrow: string, separator: string)
    requires parse(e.changes).None? || parse(e.changes) == Some([])
    ensures e.ChangesText(parse, colon, arrow, separator) == ""
  {
  }

  /**
   * The k-th field's `field:colon:old:arrow:new` text stands at its place in
   * `changes_str`, `separator` follows it unless it is the last field, and the
   * text ends right after the last field's piece.
   */
  lemma ChangesTextInOrder(e: LogAction, parse: string -> Option<ChangeMap>, colon: string, arrow: string,
                           separator: string, k: nat)
    requires k < |e.ChangesDict(parse)|
    ensures var pieces := Pieces(e.ChangesDict(parse), colon, arrow);
      && pieces[k] == Piece(e.ChangesDict(parse)[k], colon, arrow)
      && JoinLayoutAt(separator, pieces, k, e.ChangesText(parse, colon, arrow, separator))
  {
    JoinLayout(separator, Pieces(e.ChangesDict(parse), colon, arrow), k);
  }

  /** Two fields with the default separators: "name: Alice → Bob; age: 30 → 31". */
  lemma DefaultFormatExample(e: LogAction, parse: string -> Option<ChangeMap>)
    requires parse(e.changes) == Some([FieldChange("name", "Alice", "Bob"), FieldChange("age", "30", "31")])
    ensures e.ChangesText(parse, DefaultColon, DefaultArrow, DefaultSeparator)
         == "name: Alice \U{2192} Bob; age: 30 \U{2192} 31"
  {
    var changeMap := e.ChangesDict(parse);
    var pieces := Pieces(changeMap, DefaultColon, DefaultArrow);
    assert pieces[0] == "name: Alice \U{2192} Bob";
    assert pieces[1] == "age: 30 \U{2192} 31";
    assert pieces[1..] == ["age: 30 \U{2192} 31"];
    assert Join(DefaultSeparator, pieces) == pieces[0] + DefaultSeparator + pieces[1];
  }
}
