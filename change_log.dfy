/** The change-tracking mixin of the models (results/mixins/change_log.py):
    a snapshot of the field values taken when an instance is built, the
    difference between it and the current values, and the admin log entry
    a save writes. Field values are generic; `show` is Python's `str`. */
module ChangeLog {
  import opened Common

  /** `model_to_dict` of an instance: its fields, keyed by name. */
  type Fields<V> = map<string, V>

  /** `diff`: the fields whose value differs from the snapshot, mapped to
      (snapshot value, current value). Both dicts come from the same model,
      so they have the same keys. */
  function Diff<V(==)>(initial: Fields<V>, current: Fields<V>): (d: map<string, (V, V)>)
    requires initial.Keys == current.Keys
    ensures d.Keys <= initial.Keys
  {
    map k | k in initial && initial[k] != current[k] :: (initial[k], current[k])
  }

  /** A field is in the diff exactly when its value changed, and the diff
      records the value before and after. */
  lemma DiffSpec<V>(initial: Fields<V>, current: Fields<V>, k: string)
    requires initial.Keys == current.Keys
    ensures k in Diff(initial, current) <==> k in initial && initial[k] != current[k]
    ensures k in Diff(initial, current) ==> Diff(initial, current)[k] == (initial[k], current[k])
  {
  }

  /** An instance whose fields all equal the snapshot has an empty diff, and
      only such an instance has. */
  lemma {:induction false} DiffEmptyIffUnchanged<V>(initial: Fields<V>, current: Fields<V>)
    requires initial.Keys == current.Keys
    ensures Diff(initial, current) == map[] <==> initial == current
  {
    if Diff(initial, current) == map[] {
      assert forall k :: k in initial ==> k !in Diff(initial, current);
    } else {
      var k :| k in Diff(initial, current);
      assert initial[k] != current[k];
    }
  }

  /** The entries of `fields` that are keys of `m`, in the order of `fields`. */
  function KeysIn<V>(fields: seq<string>, m: map<string, V>): (r: seq<string>)
    ensures |r| <= |fields|
    ensures forall f :: f in r <==> f in fields && f in m
  {
    Filter(fields, f => f in m)
  }

  /** `fields[..i + 1]` filtered is `fields[..i]` filtered, then `fields[i]`
      when it is a key of `m`. */
  lemma KeysInStep<V>(fields: seq<string>, m: map<string, V>, i: nat)
    requires i < |fields|
    ensures KeysIn(fields[..i + 1], m) == KeysIn(fields[..i], m) + (if fields[i] in m then [fields[i]] else [])
  {
    assert fields[..i + 1] == fields[..i] + [fields[i]];
    FilterSnoc(fields[..i], fields[i], f => f in m);
  }

  /** Field `x` is declared before field `y`. */
  predicate Precedes(names: seq<string>, x: string, y: string) {
    exists a, b :: 0 <= a < b < |names| && names[a] == x && names[b] == y
  }

  /** `changed_fields`: the keys of `diff`, in field declaration order
      (`names` lists the model's fields in that order). */
  method ChangedFields<V(==)>(names: seq<string>, initial: Fields<V>, current: Fields<V>)
    returns (changed: seq<string>)
    requires initial.Keys == current.Keys
    requires forall k :: k in initial <==> k in names
    ensures changed == KeysIn(names, Diff(initial, current))
    ensures |changed| <= |names|
    ensures forall k :: k in changed <==> k in Diff(initial, current)
    ensures forall i, j :: 0 <= i < j < |changed| ==> Precedes(names, changed[i], changed[j])
  {
    changed := [];
    ghost var at: seq<int> := [];
    var i := 0;
    while i < |names|
      invariant 0 <= i <= |names|
      invariant |changed| <= i
      invariant |at| == |changed|
      invariant forall m :: 0 <= m < |at| ==> 0 <= at[m] < i && names[at[m]] == changed[m]
      invariant forall m, n :: 0 <= m < n < |at| ==> at[m] < at[n]
      invariant changed == KeysIn(names[..i], Diff(initial, current))
    {
      KeysInStep(names, Diff(initial, current), i);
      var k := names[i];
      if initial[k] != current[k] {
        changed := changed + [k];
        at := at + [i];
      }
      i := i + 1;
    }
    assert names[..i] == names;
    forall m, n | 0 <= m < n < |changed|
      ensures Precedes(names, changed[m], changed[n])
    {
      var a, b := at[m], at[n];
      assert 0 <= a < b < |names| && names[a] == changed[m] && names[b] == changed[n];
    }
  }

  /** One line of `_change_message`: `"field: new value"` for a field whose
      value is logged, otherwise the bare field name. */
  function ChangeLine(field: string, newValue: string, logged: bool): (line: string)
    ensures field <= line
    ensures logged ==> line[|field|..] == ": " + newValue
    ensures !logged ==> line == field
  {
    if logged then field + ": " + newValue else field
  }

  /** `lines` is the change message for the fields `changed`: line `i`
      describes `changed[i]`. */
  predicate ChangeLines<V>(lines: seq<string>, changed: seq<string>, current: Fields<V>,
                           valueFields: seq<string>, show: V -> string)
  {
    |lines| == |changed| &&
    forall i :: 0 <= i < |changed| ==>
      changed[i] in current &&
      lines[i] == ChangeLine(changed[i], show(current[changed[i]]), changed[i] in valueFields)
  }

  /** `lines` is the addition message for the logged fields `present`: line
      `i` is `"field: value"` for `present[i]`. */
  predicate AddLines<V>(lines: seq<string>, present: seq<string>, current: Fields<V>, show: V -> string)
  {
    |lines| == |present| &&
    forall i :: 0 <= i < |present| ==>
      present[i] in current && lines[i] == present[i] + ": " + show(current[present[i]])
  }

  /** `_change_message`. `valueFields` is the model's entry in
      LOG_VALUE_FIELDS, empty when the model has none. */
  method ChangeMessage<V(==)>(changed: seq<string>, current: Fields<V>, valueFields: seq<string>,
                              show: V -> string)
    returns (lines: seq<string>)
    requires forall i :: 0 <= i < |changed| ==> changed[i] in current
    ensures |lines| == |changed|
    ensures forall i :: 0 <= i < |changed| ==>
      lines[i] == ChangeLine(changed[i], show(current[changed[i]]), changed[i] in valueFields)
  {
    lines := [];
    for i := 0 to |changed|
      invariant |lines| == i
      invariant forall m :: 0 <= m < i ==>
        lines[m] == ChangeLine(changed[m], show(current[changed[m]]), changed[m] in valueFields)
    {
      var field := changed[i];
      if field in valueFields {
        lines := lines + [field + ": " + show(current[field])];
      } else {
        lines := lines + [field];
      }
    }
  }

  /** `_add_message`: `"field: value"` for each logged field the instance
      has, in LOG_VALUE_FIELDS order. */
  method AddMessage<V>(current: Fields<V>, valueFields: seq<string>, show: V -> string)
    returns (lines: seq<string>)
    ensures AddLines(lines, KeysIn(valueFields, current), current, show)
    ensures |lines| <= |valueFields|
    ensures forall line :: line in lines <==>
      exists i :: 0 <= i < |valueFields| && valueFields[i] in current
                  && line == valueFields[i] + ": " + show(current[valueFields[i]])
  {
    lines := [];
    for i := 0 to |valueFields|
      invariant |lines| <= i
      invariant forall line :: line in lines <==>
        exists m :: 0 <= m < i && valueFields[m] in current
                    && line == valueFields[m] + ": " + show(current[valueFields[m]])
      invariant AddLines(lines, KeysIn(valueFields[..i], current), current, show)
    {
      KeysInStep(valueFields, current, i);
      var field := valueFields[i];
      if field in current {
        lines := lines + [field + ": " + show(current[field])];
      }
    }
    assert valueFields[..|valueFields|] == valueFields;
  }

  datatype ActionFlag = Addition | Change

  /** One part of a log entry's change message. */
  datatype MessagePart = Added | ChangedPart(lines: seq<string>)

  datatype LogEntry = LogEntry(action: ActionFlag, objectId: nat, message: seq<MessagePart>)

  /** An instance of a model that uses the mixin. The snapshot is taken by
      the constructor and never refreshed. */
  class Tracked<V(==)> {
    const names: seq<string>
    const valueFields: seq<string>
    const initial: Fields<V>
    var current: Fields<V>
    var pk: Option<nat>

    ghost predicate Valid()
      reads this
    {
      initial.Keys == current.Keys && forall k :: k in initial <==> k in names
    }

    /** `__init__`: the loaded (or new) values become the snapshot. */
    constructor (names: seq<string>, valueFields: seq<string>, values: Fields<V>, pk: Option<nat>)
      requires forall k :: k in values <==> k in names
      ensures Valid()
      ensures this.names == names && this.valueFields == valueFields
      ensures initial == values && current == values && this.pk == pk
    {
      this.names := names;
      this.valueFields := valueFields;
      initial := values;
      current := values;
      this.pk := pk;
    }

    /** Assigning a field of the instance. */
    method Set(field: string, value: V)
      requires Valid() && field in current
      modifies this
      ensures Valid()
      ensures current == old(current)[field := value] && pk == old(pk)
    {
      current := current[field := value];
    }

    /** `save`: the action is ADDITION when the instance had no primary key
      before saving, otherwise CHANGE; a CHANGE entry is written only when
      some field changed. `newPk` is the key the database assigns. The
      snapshot stays as it was. */
    method Save(newPk: nat, show: V -> string) returns (entry: Option<LogEntry>)
      requires Valid()
      modifies this
      ensures Valid()
      ensures current == old(current)
      ensures pk == (if old(pk).Some? then old(pk) else Some(newPk))
      ensures old(pk).None? ==>
        entry.Some? && entry.value.action == Addition && entry.value.objectId == newPk
        && |entry.value.message| == 2 && entry.value.message[0] == Added
        && entry.value.message[1].ChangedPart?
        && AddLines(entry.value.message[1].lines, KeysIn(valueFields, current), current, show)
      ensures old(pk).Some? ==> (entry.Some? <==> Diff(initial, current) != map[])
      ensures old(pk).Some? && entry.Some? ==>
        entry.value.action == Change && entry.value.objectId == old(pk).value
        && |entry.value.message| == 1 && entry.value.message[0].ChangedPart?
        && ChangeLines(entry.value.message[0].lines, KeysIn(names, Diff(initial, current)),
                       current, valueFields, show)
    {
      var action := if pk.Some? then Change else Addition;
      if pk.None? {
        pk := Some(newPk);
      }
      if action == Addition {
        var added := AddMessage(current, valueFields, show);
        entry := Some(LogEntry(Addition, pk.value, [Added, ChangedPart(added)]));
      } else {
        var changed := ChangedFields(names, initial, current);
        if changed != [] {
          assert changed[0] in Diff(initial, current);
          assert forall i :: 0 <= i < |changed| ==> changed[i] in Diff(initial, current);
          var lines := ChangeMessage(changed, current, valueFields, show);
          entry := Some(LogEntry(Change, pk.value, [ChangedPart(lines)]));
        } else {
          assert forall k :: k !in Diff(initial, current);
          entry := None;
        }
      }
    }
  }
}
