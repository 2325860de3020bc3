/**
Structure limits on parsed messages (freeciv-proxy/message_validator.py): depth, keys per object,
array and string length.
*/
module JsonLimits {
  import opened Options

  const MAX_DEPTH: nat := 10
  const MAX_STRING: nat := 1000
  const MAX_ARRAY: nat := 100
  const MAX_KEYS: nat := 50

  /** An object's entries are in the order in which the dictionary lists them. */
  datatype Json =
    | Null
    | Bool(flag: bool)
    | Number(number: real)
    | Text(text: string)
    | Array(items: seq<Json>)
    | Object(entries: seq<Entry>)

  datatype Entry = Entry(key: string, value: Json)

  datatype Error = TooDeep | TooManyKeys | InvalidKey | ArrayTooLong | StringTooLong | NotAnObject

  /** `_validate_json_structure`; `None` means no complaint. */
  function Check(v: Json, depth: nat): Option<Error>
    decreases v
  {
    if depth > MAX_DEPTH then Some(TooDeep)
    else match v
      case Object(entries) => if |entries| > MAX_KEYS then Some(TooManyKeys) else CheckEntries(entries, depth)
      case Array(items) => if |items| > MAX_ARRAY then Some(ArrayTooLong) else CheckItems(items, depth)
      case Text(text) => if |text| > MAX_STRING then Some(StringTooLong) else None
      case _ => None
  }

  function CheckEntries(entries: seq<Entry>, depth: nat): Option<Error>
    decreases entries
  {
    if entries == [] then None
    else if |entries[0].key| > MAX_STRING then Some(InvalidKey)
    else
      var first := Check(entries[0].value, depth + 1);
      if first.Some? then first else CheckEntries(entries[1..], depth)
  }

  function CheckItems(items: seq<Json>, depth: nat): Option<Error>
    decreases items
  {
    if items == [] then None
    else
      var first := Check(items[0], depth + 1);
      if first.Some? then first else CheckItems(items[1..], depth)
  }

  /** `_parse_json_safely`, after the parser. */
  function CheckMessage(v: Json): Option<Error> {
    if !v.Object? then Some(NotAnObject) else Check(v, 0)
  }

  // ---------------------------------------------------------------- the values inside a value

  function Arity(v: Json): nat {
    match v
    case Array(items) => |items|
    case Object(entries) => |entries|
    case _ => 0
  }

  function Child(v: Json, i: nat): (child: Json)
    requires i < Arity(v)
    ensures child < v
  {
    match v
    case Array(items) => items[i]
    case Object(entries) => assert entries[i] < v; entries[i].value
  }

  /** The value that a path of child numbers leads to. */
  function At(v: Json, path: seq<nat>): Option<Json>
    decreases |path|
  {
    if path == [] then Some(v)
    else if path[0] < Arity(v) then At(Child(v, path[0]), path[1..])
    else None
  }

  /** What one value is allowed to be, whatever it holds and wherever it is. */
  predicate Fits(v: Json) {
    match v
    case Object(entries) => |entries| <= 50 && forall i | 0 <= i < |entries| :: |entries[i].key| <= 1000
    case Array(items) => |items| <= 100
    case Text(text) => |text| <= 1000
    case _ => true
  }

  /** The fault each complaint stands for. */
  predicate Shows(v: Json, depth: nat, e: Error) {
    match e
    case TooDeep => depth > 10
    case TooManyKeys => v.Object? && |v.entries| > 50
    case InvalidKey => v.Object? && exists i | 0 <= i < |v.entries| :: |v.entries[i].key| > 1000
    case ArrayTooLong => v.Array? && |v.items| > 100
    case StringTooLong => v.Text? && |v.text| > 1000
    case NotAnObject => false
  }

  // ---------------------------------------------------------------- one level

  lemma {:induction false} EntriesPassIff(entries: seq<Entry>, depth: nat)
    ensures CheckEntries(entries, depth) == None <==>
            forall i | 0 <= i < |entries| ::
              |entries[i].key| <= MAX_STRING && Check(entries[i].value, depth + 1) == None
  {
    if entries != [] {
      EntriesPassIff(entries[1..], depth);
      assert forall i | 1 <= i < |entries| :: entries[i] == entries[1..][i - 1];
    }
  }

  lemma {:induction false} ItemsPassIff(items: seq<Json>, depth: nat)
    ensures CheckItems(items, depth) == None <==> forall i | 0 <= i < |items| :: Check(items[i], depth + 1) == None
  {
    if items != [] {
      ItemsPassIff(items[1..], depth);
      assert forall i | 1 <= i < |items| :: items[i] == items[1..][i - 1];
    }
  }

  /** A value passes exactly when it fits, is not too deep, and all its children pass one level down. */
  lemma PassIff(v: Json, depth: nat)
    ensures Check(v, depth) == None <==>
            depth <= MAX_DEPTH && Fits(v) && forall i | 0 <= i < Arity(v) :: Check(Child(v, i), depth + 1) == None
  {
    if v.Object? {
      EntriesPassIff(v.entries, depth);
      assert forall i | 0 <= i < Arity(v) :: Child(v, i) == v.entries[i].value;
    } else if v.Array? {
      ItemsPassIff(v.items, depth);
      assert forall i | 0 <= i < Arity(v) :: Child(v, i) == v.items[i];
    }
  }

  // ---------------------------------------------------------------- the whole value

  predicate FineAt(v: Json, depth: nat, path: seq<nat>) {
    At(v, path).Some? ==> depth + |path| <= 10 && Fits(At(v, path).value)
  }

  ghost predicate Fine(v: Json, depth: nat) {
    forall path :: FineAt(v, depth, path)
  }

  lemma {:induction false} CheckIsExact(v: Json, depth: nat)
    ensures Check(v, depth) == None <==> Fine(v, depth)
    decreases v
  {
    hide Check, Child, Fits;
    PassIff(v, depth);
    forall i | 0 <= i < Arity(v)
      ensures Check(Child(v, i), depth + 1) == None <==> Fine(Child(v, i), depth + 1)
    {
      CheckIsExact(Child(v, i), depth + 1);
    }
    if Check(v, depth) == None {
      forall path ensures FineAt(v, depth, path) {
        if path != [] && path[0] < Arity(v) {
          assert Fine(Child(v, path[0]), depth + 1) && FineAt(Child(v, path[0]), depth + 1, path[1..]);
        }
      }
    }
    if Fine(v, depth) {
      assert FineAt(v, depth, []);
      forall i | 0 <= i < Arity(v) ensures Fine(Child(v, i), depth + 1) {
        var deeper := depth + 1;
        forall path ensures FineAt(Child(v, i), deeper, path) {
          assert FineAt(v, depth, [i] + path) && ([i] + path)[1..] == path;
        }
      }
    }
  }

  /** A message passes exactly when it is an object and every value in it is shallow enough and fits. */
  lemma MessagePassesIff(v: Json)
    ensures CheckMessage(v) == None <==> v.Object? && Fine(v, 0)
  {
    CheckIsExact(v, 0);
  }

  // ---------------------------------------------------------------- the complaint

  predicate Points(v: Json, depth: nat, path: seq<nat>, e: Error) {
    At(v, path).Some? && Shows(At(v, path).value, depth + |path|, e)
  }

  lemma {:induction false} EntriesComplaint(entries: seq<Entry>, depth: nat) returns (i: nat)
    requires CheckEntries(entries, depth).Some?
    ensures i < |entries|
    ensures
      var e := CheckEntries(entries, depth);
      (e == Some(InvalidKey) && |entries[i].key| > MAX_STRING) || e == Check(entries[i].value, depth + 1)
  {
    if |entries[0].key| > MAX_STRING || Check(entries[0].value, depth + 1).Some? {
      i := 0;
    } else {
      i := EntriesComplaint(entries[1..], depth);
      i := i + 1;
    }
  }

  lemma {:induction false} ItemsComplaint(items: seq<Json>, depth: nat) returns (i: nat)
    requires CheckItems(items, depth).Some?
    ensures i < |items| && CheckItems(items, depth) == Check(items[i], depth + 1)
  {
    if Check(items[0], depth + 1).Some? {
      i := 0;
    } else {
      i := ItemsComplaint(items[1..], depth);
      i := i + 1;
    }
  }

  /** Every complaint is true of some value in the message. */
  lemma {:induction false} ComplaintIsJustified(v: Json, depth: nat)
    requires Check(v, depth).Some?
    ensures exists path :: Points(v, depth, path, Check(v, depth).value)
    decreases v
  {
    var e := Check(v, depth).value;
    if Shows(v, depth, e) {
      assert Points(v, depth, [], e);
    } else {
      var i: nat;
      if v.Object? {
        i := EntriesComplaint(v.entries, depth);
      } else {
        i := ItemsComplaint(v.items, depth);
      }
      var deeper := depth + 1;
      ComplaintIsJustified(Child(v, i), deeper);
      var rest :| Points(Child(v, i), deeper, rest, e);
      assert ([i] + rest)[1..] == rest;
      assert Points(v, depth, [i] + rest, e);
    }
  }

  /** What a message is told: that it is no object, or else something true of some value in it. */
  lemma MessageComplaint(v: Json)
    ensures CheckMessage(v) == Some(NotAnObject) <==> !v.Object?
    ensures v.Object? && CheckMessage(v).Some? ==> exists path :: Points(v, 0, path, CheckMessage(v).value)
  {
    if v.Object? && Check(v, 0).Some? {
      ComplaintIsJustified(v, 0);
    }
  }

  // ---------------------------------------------------------------- size

  /** The number of values in a value, itself included. */
  function Count(v: Json): nat
    decreases v
  {
    match v
    case Object(entries) => 1 + CountEntries(entries)
    case Array(items) => 1 + CountItems(items)
    case _ => 1
  }

  function CountEntries(entries: seq<Entry>): nat
    decreases entries
  {
    if entries == [] then 0 else Count(entries[0].value) + CountEntries(entries[1..])
  }

  function CountItems(items: seq<Json>): nat
    decreases items
  {
    if items == [] then 0 else Count(items[0]) + CountItems(items[1..])
  }

  /** 1 + 100 + ... + 100^levels */
  function Most(levels: nat): nat {
    if levels == 0 then 1 else 1 + 100 * Most(levels - 1)
  }

  lemma OneMore(n: nat, m: nat)
    ensures (n + 1) * m == n * m + m
  {
  }

  lemma FewerTimes(n: nat, most: nat, m: nat)
    requires n <= most
    ensures n * m <= most * m
  {
  }

  lemma {:induction false} EntriesCount(entries: seq<Entry>, depth: nat)
    requires depth <= MAX_DEPTH && CheckEntries(entries, depth) == None
    ensures CountEntries(entries) <= if depth == MAX_DEPTH then 0 else |entries| * Most(MAX_DEPTH - depth - 1)
    decreases entries
  {
    if entries != [] {
      hide Most;
      CountIsBounded(entries[0].value, depth + 1);
      EntriesCount(entries[1..], depth);
      OneMore(|entries| - 1, Most(MAX_DEPTH - depth - 1));
    }
  }

  lemma {:induction false} ItemsCount(items: seq<Json>, depth: nat)
    requires depth <= MAX_DEPTH && CheckItems(items, depth) == None
    ensures CountItems(items) <= if depth == MAX_DEPTH then 0 else |items| * Most(MAX_DEPTH - depth - 1)
    decreases items
  {
    if items != [] {
      hide Most;
      CountIsBounded(items[0], depth + 1);
      ItemsCount(items[1..], depth);
      OneMore(|items| - 1, Most(MAX_DEPTH - depth - 1));
    }
  }

  lemma {:induction false} CountIsBounded(v: Json, depth: nat)
    requires Check(v, depth) == None
    ensures depth <= MAX_DEPTH && Count(v) <= Most(MAX_DEPTH - depth)
    decreases v
  {
    if v.Object? {
      EntriesCount(v.entries, depth);
      if depth < MAX_DEPTH { FewerTimes(|v.entries|, MAX_ARRAY, Most(MAX_DEPTH - depth - 1)); }
    } else if v.Array? {
      ItemsCount(v.items, depth);
      if depth < MAX_DEPTH { FewerTimes(|v.items|, MAX_ARRAY, Most(MAX_DEPTH - depth - 1)); }
    }
  }

  lemma MostGrows(levels: nat)
    requires levels > 0
    ensures Most(levels) == 1 + MAX_ARRAY * Most(levels - 1) && Most(levels - 1) > 0
  {
  }

  /** The most values a message can have: one object, and full arrays for the ten levels under its keys. */
  function MostInMessage(): nat {
    1 + 50 * Most(9)
  }

  lemma MessageIsBounded(v: Json)
    requires CheckMessage(v) == None
    ensures Count(v) <= MostInMessage() < Most(MAX_DEPTH)
  {
    hide Most;
    EntriesCount(v.entries, 0);
    FewerTimes(|v.entries|, MAX_KEYS, Most(MAX_DEPTH - 1));
    MostGrows(MAX_DEPTH);
  }

  function Copies<T>(v: T, n: nat): seq<T> {
    seq(n, _ => v)
  }

  /** An array of arrays, full down to `levels` more levels. */
  function Full(levels: nat): Json {
    if levels == 0 then Null else Array(Copies(Full(levels - 1), MAX_ARRAY))
  }

  /** Entries with the same value under keys of `from` characters, `from + 1`, and so on. */
  function Keyed(v: Json, from: nat, n: nat): seq<Entry> {
    seq(n, i requires 0 <= i => Entry(Copies('k', from + i), v))
  }

  function Largest(): Json {
    Object(Keyed(Full(MAX_DEPTH - 1), 0, MAX_KEYS))
  }

  predicate KeysDiffer(v: Json) {
    v.Object? ==> forall i, j | 0 <= i < j < |v.entries| :: v.entries[i].key != v.entries[j].key
  }

  /** What a parser can return: no dictionary anywhere in it has a key twice. */
  ghost predicate Parsed(v: Json) {
    forall path | At(v, path).Some? :: KeysDiffer(At(v, path).value)
  }

  lemma {:induction false} RepeatedItems(v: Json, n: nat)
    ensures CountItems(Copies(v, n)) == n * Count(v)
  {
    if n > 0 {
      assert Copies(v, n)[1..] == Copies(v, n - 1);
      RepeatedItems(v, n - 1);
    }
  }

  lemma {:induction false} KeyedEntries(v: Json, from: nat, n: nat)
    ensures CountEntries(Keyed(v, from, n)) == n * Count(v)
    decreases n
  {
    if n > 0 {
      assert Keyed(v, from, n)[1..] == Keyed(v, from + 1, n - 1);
      KeyedEntries(v, from + 1, n - 1);
    }
  }

  lemma ArrayOfMany(v: Json, n: nat, depth: nat)
    requires depth < MAX_DEPTH && Check(v, depth + 1) == None && n <= MAX_ARRAY
    ensures
      var a := Array(Copies(v, n));
      Check(a, depth) == None && Count(a) == 1 + n * Count(v)
  {
    RepeatedItems(v, n);
    PassIff(Array(Copies(v, n)), depth);
  }

  lemma FullGrows(levels: nat)
    requires levels > 0
    ensures Full(levels) == Array(Copies(Full(levels - 1), MAX_ARRAY))
  {
  }

  lemma {:induction false} FullIsFull(levels: nat)
    requires levels <= MAX_DEPTH
    ensures Count(Full(levels)) == Most(levels) && Check(Full(levels), MAX_DEPTH - levels) == None
  {
    if levels == 0 {
    } else {
      hide Check, Count, Copies, Most, Full;
      FullIsFull(levels - 1);
      MostGrows(levels);
      FullGrows(levels);
      ArrayOfMany(Full(levels - 1), MAX_ARRAY, MAX_DEPTH - levels);
    }
  }

  lemma {:induction false} FullHasNoObjects(levels: nat, path: seq<nat>)
    ensures At(Full(levels), path).Some? ==> !At(Full(levels), path).value.Object?
    decreases levels
  {
    if path != [] && levels > 0 && path[0] < MAX_ARRAY {
      assert Child(Full(levels), path[0]) == Full(levels - 1);
      FullHasNoObjects(levels - 1, path[1..]);
    }
  }

  lemma ObjectOfMany(v: Json, n: nat)
    requires Check(v, 1) == None && n <= MAX_KEYS
    ensures
      var message := Object(Keyed(v, 0, n));
      && CheckMessage(message) == None && Count(message) == 1 + n * Count(v)
      && KeysDiffer(message) && Arity(message) == n && forall i | 0 <= i < n :: Child(message, i) == v
  {
    var message := Object(Keyed(v, 0, n));
    forall i | 0 <= i < n ensures |message.entries[i].key| == i {
      assert message.entries[i].key == Copies('k', i);
    }
    KeyedEntries(v, 0, n);
    PassIff(message, 0);
  }

  /** The bound is the best there is: this message can be parsed, passes, and reaches it. */
  lemma BoundIsReached()
    ensures CheckMessage(Largest()) == None && Count(Largest()) == MostInMessage() && Parsed(Largest())
  {
    hide Most, Full, Check, CheckMessage, Count, Keyed, Child, Arity;
    FullIsFull(MAX_DEPTH - 1);
    ObjectOfMany(Full(MAX_DEPTH - 1), MAX_KEYS);
    forall path | At(Largest(), path).Some? ensures KeysDiffer(At(Largest(), path).value) {
      if path != [] {
        FullHasNoObjects(MAX_DEPTH - 1, path[1..]);
      }
    }
  }
}
