// The parameter table of parameters.c: bounded 32-bit values and short strings.
module Parameters {
  import opened Words
  import opened Options

  // PARSE_CMD_MAX_STRING_LEN
  const MAX_STRING_LEN: nat := 48

  // What the project's parameter list fixes: the maximum of each value, the default of each value,
  // and the minimum, which only the start-up check looks at.
  datatype Bounds = Bounds(min: seq<uint32>, max: seq<uint32>, defaults: seq<uint32>)

  type Limits = b: Bounds | |b.min| == |b.max| == |b.defaults| <= 255 witness Bounds([], [], [])

  // parameters_value and parameters_string; a string without its terminator.
  datatype Table = Table(values: seq<uint32>, strings: seq<seq<uint8>>)

  ghost predicate ValidTable(l: Limits, t: Table) {
    |t.values| == |l.max|
  }

  // What setString lets in: strings with room for their terminator.
  ghost predicate ShortStrings(t: Table) {
    forall s | s in t.strings :: |s| < MAX_STRING_LEN && 0 !in s
  }

  function GetValue(t: Table, val: uint8): uint32 {
    if val < |t.values| then t.values[val] else 0
  }

  // The new table and whether the value was taken.
  function SetValue(l: Limits, t: Table, val: uint8, v: uint32): (Table, bool) {
    if val >= |t.values| || val >= |l.max| then (t, false)
    else if v > l.max[val] then (t, false)
    else (t.(values := t.values[val := v]), true)
  }

  function SetString(t: Table, val: uint8, str: seq<uint8>): (Table, bool) {
    if val >= |t.strings| || |str| >= MAX_STRING_LEN then (t, false)
    else (t.(strings := t.strings[val := str]), true)
  }

  // What parameters_getString copies into a buffer of `room` bytes, if it fits with its terminator.
  function GetString(t: Table, val: uint8, room: nat): Option<seq<uint8>> {
    if val >= |t.strings| || |t.strings[val]| >= room then None else Some(t.strings[val])
  }

  ghost predicate WithinMax(l: Limits, t: Table) {
    |t.values| == |l.max| && forall i | 0 <= i < |l.max| :: t.values[i] <= l.max[i]
  }

  // A value that is taken is read back, no other entry changes, and no value passes its maximum.
  lemma SetThenGet(l: Limits, t: Table, val: uint8, v: uint32, other: uint8)
    requires ValidTable(l, t)
    ensures var (t', ok) := SetValue(l, t, val, v);
      && ValidTable(l, t') && (WithinMax(l, t) ==> WithinMax(l, t'))
      && (ok <==> val < |l.max| && v <= l.max[val])
      && GetValue(t', other) == (if ok && other == val then v else GetValue(t, other))
      && t'.strings == t.strings
  {
  }

  // A string that is taken is read back wherever it fits with its terminator, and no other string and no
  // value changes.
  lemma SetStringThenGet(t: Table, val: uint8, str: seq<uint8>, other: uint8, room: nat)
    ensures var (t', ok) := SetString(t, val, str);
      && (ok <==> val < |t.strings| && |str| < MAX_STRING_LEN)
      && t'.values == t.values && |t'.strings| == |t.strings|
      && GetString(t', other, room)
         == if ok && other == val then (if |str| < room then Some(str) else None) else GetString(t, other, room)
  {
  }

  // The check the values must pass at the next start, or all of them fall back to their defaults.
  ghost predicate PassesCheck(l: Limits, t: Table) {
    |t.values| == |l.max| == |l.min| && forall i | 0 <= i < |t.values| :: l.min[i] <= t.values[i] <= l.max[i]
  }

  // setValue does not look at the minimum: the table still passes the check exactly if the value does.
  lemma CheckAfterSet(l: Limits, t: Table, val: uint8, v: uint32)
    requires ValidTable(l, t) && PassesCheck(l, t) && SetValue(l, t, val, v).1
    ensures PassesCheck(l, SetValue(l, t, val, v).0) <==> l.min[val] <= v
  {
    var t' := SetValue(l, t, val, v).0;
    assert t'.values[val] == v;
  }

  class Store {
    const limits: Limits
    var values: seq<uint32>
    var strings: seq<seq<uint8>>

    ghost predicate Valid()
      reads this
    {
      ValidTable(limits, Contents())
    }

    function Contents(): Table
      reads this
    {
      Table(values, strings)
    }

    constructor (limits: Limits, strings: nat)
      ensures Valid() && this.limits == limits
      ensures Contents() == Table(seq(|limits.max|, _ => 0), seq(strings, _ => []))
    {
      this.limits := limits;
      values := seq(|limits.max|, _ => 0);
      this.strings := seq(strings, _ => []);
    }

    method Get(val: uint8) returns (v: uint32)
      ensures v == GetValue(Contents(), val)
    {
      if val >= |values| { return 0; }
      v := values[val];
    }

    method Set(val: uint8, v: uint32) returns (ok: bool)
      requires Valid()
      modifies this`values
      ensures Valid() && (Contents(), ok) == SetValue(limits, old(Contents()), val, v)
    {
      if val >= |values| { return false; }
      if v > limits.max[val] { return false; }
      values := values[val := v];
      ok := true;
    }

    method SetStr(val: uint8, str: seq<uint8>) returns (ok: bool)
      requires Valid()
      modifies this`strings
      ensures Valid() && (Contents(), ok) == SetString(old(Contents()), val, str)
    {
      if val >= |strings| || |str| >= MAX_STRING_LEN { return false; }
      strings := strings[val := str];
      ok := true;
    }

    method GetStr(val: uint8, room: nat) returns (str: Option<seq<uint8>>)
      ensures str == GetString(Contents(), val, room)
    {
      if val >= |strings| || |strings[val]| >= room { return None; }
      str := Some(strings[val]);
    }

    method SetDefaultValues()
      requires Valid()
      modifies this`values
      ensures Valid() && values == limits.defaults && strings == old(strings)
    {
      var i := 0;
      while i < |values|
        invariant 0 <= i <= |values| == |limits.max|
        invariant values[..i] == limits.defaults[..i]
      {
        values := values[i := limits.defaults[i]];
        i := i + 1;
      }
    }

    // _check_values: the stored values are usable.
    method CheckValues() returns (ok: bool)
      requires Valid()
      ensures ok <==> forall i | 0 <= i < |values| :: limits.min[i] <= values[i] <= limits.max[i]
    {
      var i := 0;
      while i < |values|
        invariant 0 <= i <= |values|
        invariant forall j | 0 <= j < i :: limits.min[j] <= values[j] <= limits.max[j]
      {
        if values[i] > limits.max[i] || values[i] < limits.min[i] { return false; }
        i := i + 1;
      }
      ok := true;
    }
  }
}
