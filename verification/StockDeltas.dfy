/** Redaction of stock tracking deltas, and the bounds on what remains. */
module StockDeltas {
  import opened Common

  /** A decoded JSON value. */
  datatype Value = Null | Bool(b: bool) | Number(n: real) | Text(s: string) | List(items: seq<Value>) | Object(fields: Fields)

  type Fields = map<string, Value>

  const MAX_DEPTH := 4
  const MAX_KEYS := 64
  const DETAIL := "_detail"
  const CREATED_BY := "created_by"

  // What is dropped

  /** Lower case, as far as it can produce the letters of an identity field. */
  function Lower(c: char): char {
    if 'A' <= c <= 'Z' then c + 32 as char else if c == '\U{0130}' then 'i' else c
  }

  function LowerAll(s: string): (r: string)
    ensures |r| == |s| && forall i :: 0 <= i < |s| ==> r[i] == Lower(s[i])
  {
    if s == "" then "" else [Lower(s[0])] + LowerAll(s[1..])
  }

  predicate IdentityKey(key: string) { LowerAll(key) in {"email", "username"} }

  predicate IdentityRecord(fields: Fields) { exists key <- fields :: IdentityKey(key) }

  predicate DroppedKey(key: string) {
    key == CREATED_BY || (|key| >= |DETAIL| && key[|key| - |DETAIL|..] == DETAIL)
  }

  predicate Dropped(key: string, v: Value) { DroppedKey(key) || (v.Object? && IdentityRecord(v.fields)) }

  /** Upper and lower case of a letter agree, and nothing else changes but the dotted capital I. */
  lemma LowerMeans(c: char)
    ensures 'A' <= c <= 'Z' ==> 'a' <= Lower(c) <= 'z' && Lower(c) as int == c as int + 32
    ensures c == '\U{0130}' ==> Lower(c) == 'i'
    ensures !('A' <= c <= 'Z') && c != '\U{0130}' ==> Lower(c) == c
  {
  }

  /** A field is dropped exactly if its name is `created_by` or ends in `_detail`, or its value is an object
      with a key that reads `email` or `username` in lower case. */
  lemma DroppedMeans(key: string, v: Value)
    ensures Dropped(key, v) <==>
              || key == "created_by"
              || (exists front: string :: key == front + "_detail")
              || (v.Object? && exists k <- v.fields :: LowerAll(k) == "email" || LowerAll(k) == "username")
  {
    if |key| >= 7 && key[|key| - 7..] == "_detail" {
      assert key == key[..|key| - 7] + "_detail";
    }
    if front: string :| key == front + "_detail" {
      assert key[|key| - 7..] == "_detail";
    }
  }

  // What redaction means

  function RedactedFields(fields: Fields): Fields
    decreases Object(fields), 0
  {
    map key | key in fields && !Dropped(key, fields[key]) :: Redacted(fields[key])
  }

  function Redacted(v: Value): Value
    decreases v, 1
  {
    match v
    case Object(fields) => Object(RedactedFields(fields))
    case List(items) => List(seq(|items|, i requires 0 <= i < |items| => Redacted(items[i])))
    case _ => v
  }

  // The redactor

  method LooksLikeIdentityRecord(fields: Fields) returns (r: bool)
    ensures r <==> IdentityRecord(fields)
  {
    var todo := fields.Keys;
    while todo != {}
      invariant todo <= fields.Keys
      invariant forall key <- fields :: key !in todo ==> !IdentityKey(key)
    {
      var key :| key in todo;
      if IdentityKey(key) {
        return true;
      }
      todo := todo - {key};
    }
    return false;
  }

  method RedactFields(fields: Fields) returns (r: Fields)
    ensures r == RedactedFields(fields)
    decreases Object(fields), 0
  {
    r := map[];
    var todo := fields.Keys;
    while todo != {}
      invariant todo <= fields.Keys
      invariant r == map key | key in fields && key !in todo && !Dropped(key, fields[key]) :: Redacted(fields[key])
    {
      var key :| key in todo;
      todo := todo - {key};
      var dropped := DroppedKey(key);
      if !dropped && fields[key].Object? {
        dropped := LooksLikeIdentityRecord(fields[key].fields);
      }
      if !dropped {
        var value := RedactValue(fields[key]);
        r := r[key := value];
      }
    }
  }

  method RedactValue(v: Value) returns (r: Value)
    ensures r == Redacted(v)
    decreases v, 1
  {
    match v {
      case Object(fields) =>
        var redacted := RedactFields(fields);
        return Object(redacted);
      case List(items) =>
        var result: seq<Value> := [];
        for i := 0 to |items|
          invariant |result| == i && forall j :: 0 <= j < i ==> result[j] == Redacted(items[j])
        {
          var item := RedactValue(items[i]);
          result := result + [item];
        }
        return List(result);
      case _ =>
        return v;
    }
  }

  // Redaction keeps everything else, at every depth

  datatype Step = Field(key: string) | Item(index: nat)

  /** The value at the end of a path. */
  function At(v: Value, path: seq<Step>): Option<Value>
    decreases |path|
  {
    if path == [] then Some(v)
    else
      match (v, path[0])
      case (Object(fields), Field(key)) => if key in fields then At(fields[key], path[1..]) else None
      case (List(items), Item(i)) => if i < |items| then At(items[i], path[1..]) else None
      case _ => None
  }

  /** No step of the path goes through a dropped field. */
  predicate Survives(v: Value, path: seq<Step>)
    requires At(v, path).Some?
    decreases |path|
  {
    path == []
    || (match path[0]
        case Field(key) => !Dropped(key, v.fields[key]) && Survives(v.fields[key], path[1..])
        case Item(i) => Survives(v.items[i], path[1..]))
  }

  /** A path leads somewhere after redaction exactly when it passed no dropped field; scalars and list lengths stay. */
  lemma {:induction false} RedactionKeepsTheRest(v: Value, path: seq<Step>)
    ensures At(Redacted(v), path).Some? <==> At(v, path).Some? && Survives(v, path)
    ensures At(Redacted(v), path).Some?
            ==> var was, now := At(v, path).value, At(Redacted(v), path).value;
                && now == Redacted(was)
                && (!was.Object? && !was.List? ==> now == was)
                && (was.List? ==> now.List? && |now.items| == |was.items|)
    decreases |path|
  {
    if path != [] {
      match (v, path[0]) {
        case (Object(fields), Field(key)) =>
          if key in fields {
            RedactionKeepsTheRest(fields[key], path[1..]);
          }
        case (List(items), Item(i)) =>
          if i < |items| {
            RedactionKeepsTheRest(items[i], path[1..]);
          }
        case _ =>
      }
    }
  }

  // Nothing is left to redact

  /** At no depth is there a field that redaction drops. */
  ghost predicate Clean(v: Value) {
    match v
    case Object(fields) => forall key <- fields :: !Dropped(key, fields[key]) && Clean(fields[key])
    case List(items) => forall item <- items :: Clean(item)
    case _ => true
  }

  lemma KeptStaysKept(key: string, v: Value)
    requires !Dropped(key, v)
    ensures !Dropped(key, Redacted(v))
  {}

  lemma {:induction false} RedactedIsClean(v: Value)
    ensures Clean(Redacted(v))
  {
    match v
    case Object(fields) =>
      forall key | key in fields && !Dropped(key, fields[key])
        ensures Clean(Redacted(fields[key])) && !Dropped(key, Redacted(fields[key]))
      {
        RedactedIsClean(fields[key]);
        KeptStaysKept(key, fields[key]);
      }
    case List(items) =>
      forall i | 0 <= i < |items| ensures Clean(Redacted(items[i])) {
        RedactedIsClean(items[i]);
      }
    case _ =>
  }

  /** Redaction changes a value exactly when there is something to drop. */
  lemma {:induction false} CleanIsFixed(v: Value)
    ensures Clean(v) <==> Redacted(v) == v
  {
    RedactedIsClean(v);
    if Clean(v) {
      CleanStays(v);
    }
  }

  lemma {:induction false} CleanStays(v: Value)
    requires Clean(v)
    ensures Redacted(v) == v
  {
    match v
    case Object(fields) =>
      forall key | key in fields ensures Redacted(fields[key]) == fields[key] {
        CleanStays(fields[key]);
      }
    case List(items) =>
      forall i | 0 <= i < |items| ensures Redacted(items[i]) == items[i] {
        CleanStays(items[i]);
      }
    case _ =>
  }

  lemma RedactionIsIdempotent(v: Value)
    ensures Redacted(Redacted(v)) == Redacted(v)
  {
    RedactedIsClean(v);
    CleanIsFixed(Redacted(v));
  }

  /** What a reader of the redacted value sees: no such key on any path, no identity record under any key. */
  lemma NothingSensitiveUnderAnyKey(v: Value, path: seq<Step>, key: string)
    requires At(Redacted(v), path + [Field(key)]).Some?
    ensures key != "created_by" && forall front: string :: key != front + "_detail"
    ensures var end := At(Redacted(v), path + [Field(key)]).value;
            end.Object? ==> forall k <- end.fields :: LowerAll(k) != "email" && LowerAll(k) != "username"
    ensures !DroppedKey(key)
    ensures var end := At(Redacted(v), path + [Field(key)]).value; end.Object? ==> !IdentityRecord(end.fields)
  {
    RedactedIsClean(v);
    CleanBelow(Redacted(v), path, key);
    DroppedMeans(key, At(Redacted(v), path + [Field(key)]).value);
  }

  lemma {:induction false} CleanBelow(v: Value, path: seq<Step>, key: string)
    requires Clean(v) && At(v, path + [Field(key)]).Some?
    ensures !Dropped(key, At(v, path + [Field(key)]).value)
    decreases |path|
  {
    var whole := path + [Field(key)];
    if path == [] {
      assert whole[1..] == [];
    } else {
      assert whole[0] == path[0] && whole[1..] == path[1..] + [Field(key)];
      match path[0]
      case Field(k) => CleanBelow(v.fields[k], path[1..], key);
      case Item(i) => CleanBelow(v.items[i], path[1..], key);
    }
  }

  /**
   * Identity records are looked for directly under keys only. Where an object is left after redaction, it is an
   * identity record exactly when it is the root or an element of a list, and had an identity key to keep.
   */
  lemma IdentityIsLeftExactly(v: Value, path: seq<Step>)
    requires At(Redacted(v), path).Some? && At(Redacted(v), path).value.Object?
    ensures At(v, path).Some? && At(v, path).value.Object?
    ensures IdentityRecord(At(Redacted(v), path).value.fields)
            <==> (path == [] || path[|path| - 1].Item?) && KeepsIdentity(At(v, path).value.fields)
  {
    RedactionKeepsTheRest(v, path);
    IdentityIsKept(At(v, path).value.fields);
    if path != [] && path[|path| - 1].Field? {
      assert path == path[..|path| - 1] + [path[|path| - 1]];
      NothingSensitiveUnderAnyKey(v, path[..|path| - 1], path[|path| - 1].key);
    }
  }

  ghost predicate KeepsIdentity(fields: Fields) { exists key <- fields :: IdentityKey(key) && !Dropped(key, fields[key]) }

  lemma IdentityIsKept(fields: Fields)
    ensures IdentityRecord(RedactedFields(fields)) <==> KeepsIdentity(fields)
  {
    if key :| key in fields && IdentityKey(key) && !Dropped(key, fields[key]) {
      assert key in RedactedFields(fields);
    }
  }

  /** So an identity record in a list is kept. */
  lemma ListedIdentityIsKept()
    ensures var user := Object(map["email" := Text("a@b")]);
            var deltas := Object(map["added" := List([user])]);
            Redacted(deltas) == deltas && IdentityRecord(user.fields)
  {
    var user := map["email" := Text("a@b")];
    assert LowerAll("email") == "email";
    assert IdentityKey("email");
    assert "email" in user;
    NotDropped();
    assert Redacted(Object(user)) == Object(user);
    assert Redacted(List([Object(user)])) == List([Object(user)]);
  }

  lemma NotDropped()
    ensures !DroppedKey("email") && !DroppedKey("added")
  {}

  // The bounds

  /** At most `levels` levels of values, a scalar being one. */
  ghost predicate Fits(v: Value, levels: int) {
    && levels > 0
    && match v
       case Object(fields) => forall key <- fields :: Fits(fields[key], levels - 1)
       case List(items) => forall i :: 0 <= i < |items| ==> Fits(items[i], levels - 1)
       case _ => true
  }

  /** The sum of `weights` over some of its keys; the order of picking does not matter. */
  ghost function Sum<K>(weights: map<K, nat>, keys: set<K>): nat
    requires keys <= weights.Keys
  {
    if keys == {} then 0
    else
      var k :| k in keys;
      weights[k] + Sum(weights, keys - {k})
  }

  lemma {:induction false} SumPick<K>(weights: map<K, nat>, keys: set<K>, k: K)
    requires k in keys && keys <= weights.Keys
    ensures Sum(weights, keys) == weights[k] + Sum(weights, keys - {k})
    decreases keys
  {
    var j :| j in keys && Sum(weights, keys) == weights[j] + Sum(weights, keys - {j});
    if j != k {
      SumPick(weights, keys - {j}, k);
      SumPick(weights, keys - {k}, j);
      assert keys - {j} - {k} == keys - {k} - {j};
    }
  }

  /** The number of fields at every depth. */
  ghost function Total(v: Value): nat
    decreases v, 1
  {
    match v
    case Object(fields) => Sum(Weights(fields), fields.Keys)
    case List(items) => TotalOf(items)
    case _ => 0
  }

  ghost function TotalOf(items: seq<Value>): nat
    decreases items, 0
  {
    if items == [] then 0 else TotalOf(items[..|items| - 1]) + Total(items[|items| - 1])
  }

  ghost function Weights(fields: Fields): map<string, nat>
    decreases Object(fields), 0
  {
    map key | key in fields :: 1 + Total(fields[key])
  }

  /** `n` more keys are allowed after `count`. */
  predicate Room(count: nat, n: nat) { n == 0 || count + n <= MAX_KEYS }

  class KeyCount {
    var n: nat

    constructor ()
      ensures n == 0
    {
      n := 0;
    }
  }

  /** The bounder's loop over an object: the fields looked at fit, and the keys left to count are those of `todo`. */
  ghost predicate FieldsSoFar(fields: Fields, todo: set<string>, depth: nat, start: nat, n: nat) {
    && todo <= fields.Keys
    && (forall key <- fields :: key !in todo ==> Fits(fields[key], MAX_DEPTH - depth))
    && start + Total(Object(fields)) == n + Sum(Weights(fields), todo)
    && (todo == fields.Keys || n <= MAX_KEYS)
  }

  /** One more field: it is refused exactly when it makes the whole object too deep or too large. */
  lemma FieldStep(fields: Fields, todo: set<string>, key: string, depth: nat, start: nat, n: nat)
    requires FieldsSoFar(fields, todo, depth, start, n) && key in todo
    ensures var v, fits := fields[key], Fits(Object(fields), MAX_DEPTH + 1 - depth) && Room(start, Total(Object(fields)));
            && (n + 1 > MAX_KEYS ==> !fits)
            && (!(Fits(v, MAX_DEPTH - depth) && Room(n + 1, Total(v))) ==> !fits)
            && (n + 1 <= MAX_KEYS && Fits(v, MAX_DEPTH - depth) && Room(n + 1, Total(v)) ==>
                  FieldsSoFar(fields, todo - {key}, depth, start, n + 1 + Total(v)))
  {
    SumPick(Weights(fields), todo, key);
  }

  lemma FieldsDone(fields: Fields, depth: nat, start: nat, n: nat)
    requires FieldsSoFar(fields, {}, depth, start, n) && depth <= MAX_DEPTH
    ensures Fits(Object(fields), MAX_DEPTH + 1 - depth) && Room(start, Total(Object(fields)))
    ensures n == start + Total(Object(fields))
  {
  }

  /** The loop over a list. */
  ghost predicate ItemsSoFar(items: seq<Value>, i: nat, depth: nat, start: nat, n: nat) {
    && i <= |items|
    && (forall j :: 0 <= j < i ==> Fits(items[j], MAX_DEPTH - depth))
    && n == start + TotalOf(items[..i]) && Room(start, TotalOf(items[..i]))
  }

  lemma ItemStep(items: seq<Value>, i: nat, depth: nat, start: nat, n: nat)
    requires ItemsSoFar(items, i, depth, start, n) && i < |items|
    ensures var v := items[i];
            if Fits(v, MAX_DEPTH - depth) && Room(n, Total(v))
            then ItemsSoFar(items, i + 1, depth, start, n + Total(v))
            else !(Fits(List(items), MAX_DEPTH + 1 - depth) && Room(start, Total(List(items))))
  {
    TotalGrows(items, i);
  }

  method Bound(v: Value, depth: nat, count: KeyCount) returns (ok: bool)
    modifies count
    ensures ok <==> Fits(v, MAX_DEPTH + 1 - depth) && Room(old(count.n), Total(v))
    ensures ok ==> count.n == old(count.n) + Total(v)
    decreases v
  {
    if depth > MAX_DEPTH {
      return false;
    }
    match v {
      case Object(fields) =>
        var todo := fields.Keys;
        while todo != {}
          invariant FieldsSoFar(fields, todo, depth, old(count.n), count.n)
        {
          var key :| key in todo;
          FieldStep(fields, todo, key, depth, old(count.n), count.n);
          todo := todo - {key};
          count.n := count.n + 1;
          if count.n > MAX_KEYS {
            return false;
          }
          var fine := Bound(fields[key], depth + 1, count);
          if !fine {
            return false;
          }
        }
        FieldsDone(fields, depth, old(count.n), count.n);
      case List(items) =>
        for i := 0 to |items|
          invariant ItemsSoFar(items, i, depth, old(count.n), count.n)
        {
          ItemStep(items, i, depth, old(count.n), count.n);
          var fine := Bound(items[i], depth + 1, count);
          if !fine {
            return false;
          }
        }
        assert items[..|items|] == items;
      case _ =>
    }
    return true;
  }

  lemma {:induction false} TotalGrows(items: seq<Value>, i: nat)
    requires i < |items|
    ensures TotalOf(items[..i + 1]) == TotalOf(items[..i]) + Total(items[i]) <= TotalOf(items)
    decreases |items|
  {
    assert items[..i + 1][..i] == items[..i];
    if i + 1 == |items| {
      assert items[..i + 1] == items;
    } else {
      TotalGrows(items[..|items| - 1], i);
      assert items[..|items| - 1][..i + 1] == items[..i + 1];
      assert items[..|items| - 1][..i] == items[..i];
    }
  }

  /** The bounds hold for the payload as a whole. */
  ghost predicate Accepted(fields: Fields) { Fits(Object(fields), MAX_DEPTH) && Total(Object(fields)) <= MAX_KEYS }

  /** The raw payload: absent or null, not a JSON object, or an object. */
  datatype Payload = Nothing | NotAnObject | Decoded(fields: Fields)

  const MAX_BYTES := 8192

  /** The payload is redacted first and bounded then; `None` when it is no object, a bound is exceeded, or it
      cannot be encoded within the byte bound.  `encoded` gives the length of an encoding, if there is one. */
  method SanitizeStockTrackingDeltas(raw: Payload, encoded: Fields -> Option<nat>) returns (r: Option<Fields>)
    ensures raw.Nothing? ==> r == Some(map[])
    ensures raw.NotAnObject? ==> r == None
    ensures raw.Decoded? ==>
              var redacted := RedactedFields(raw.fields);
              r == if Accepted(redacted) && encoded(redacted).Some? && encoded(redacted).value <= 8192
                   then Some(redacted) else None
  {
    match raw
    case Nothing => return Some(map[]);
    case NotAnObject => return None;
    case Decoded(fields) =>
      var redacted := RedactFields(fields);
      var count := new KeyCount();
      var ok := Bound(Object(redacted), 1, count);
      if !ok {
        return None;
      }
      var length := encoded(redacted);
      return if length.None? || length.value > MAX_BYTES then None else Some(redacted);
  }

  // What the bounds mean, and that redaction only helps

  /** Exactly the payloads are accepted whose every path has fewer than 4 steps and that hold at most 64 fields. */
  lemma AcceptedMeans(fields: Fields)
    ensures Accepted(fields) <==>
              (forall path :: At(Object(fields), path).Some? ==> |path| < 4) && Total(Object(fields)) <= 64
  {
    NestingIsPathLength(Object(fields), 4);
  }

  /** The number of fields is fixed by what it is of one field, of objects put together, of lists put
      together and of everything else. */
  lemma TotalOfOne(key: string, v: Value)
    ensures Total(Object(map[key := v])) == 1 + Total(v) && Total(Object(map[])) == 0
  {
    var fields := map[key := v];
    SumPick(Weights(fields), fields.Keys, key);
    assert fields.Keys - {key} == {};
  }

  lemma {:induction false} TotalOfUnion(a: Fields, b: Fields)
    requires a.Keys !! b.Keys
    ensures Total(Object(a + b)) == Total(Object(a)) + Total(Object(b))
  {
    SumOfUnion(Weights(a + b), a.Keys, b.Keys);
    SumOfSame(Weights(a + b), Weights(a), a.Keys);
    SumOfSame(Weights(a + b), Weights(b), b.Keys);
    assert (a + b).Keys == a.Keys + b.Keys;
  }

  lemma {:induction false} TotalOfLists(a: seq<Value>, b: seq<Value>, v: Value)
    ensures Total(List(a + b)) == Total(List(a)) + Total(List(b)) && Total(List([v])) == Total(v) && Total(List([])) == 0
  {
    assert [v][..0] == [];
    if b == [] {
      assert a + b == a;
    } else {
      assert (a + b)[..|a + b| - 1] == a + b[..|b| - 1];
      TotalOfLists(a, b[..|b| - 1], v);
    }
  }

  lemma TotalOfScalar(v: Value)
    requires !v.Object? && !v.List?
    ensures Total(v) == 0
  {
  }

  lemma {:induction false} SumOfUnion<K>(weights: map<K, nat>, s: set<K>, t: set<K>)
    requires s + t <= weights.Keys && s !! t
    ensures Sum(weights, s + t) == Sum(weights, s) + Sum(weights, t)
    decreases s
  {
    if s == {} {
      assert s + t == t;
    } else {
      var k :| k in s;
      SumPick(weights, s + t, k);
      SumPick(weights, s, k);
      SumOfUnion(weights, s - {k}, t);
      assert s + t - {k} == (s - {k}) + t;
    }
  }

  lemma {:induction false} SumOfSame<K>(v: map<K, nat>, w: map<K, nat>, s: set<K>)
    requires s <= v.Keys && s <= w.Keys && forall k <- s :: v[k] == w[k]
    ensures Sum(v, s) == Sum(w, s)
    decreases s
  {
    if s != {} {
      var k :| k in s;
      SumPick(v, s, k);
      SumPick(w, s, k);
      SumOfSame(v, w, s - {k});
    }
  }

  /** Nesting is the length of the longest path. */
  lemma {:induction false} NestingIsPathLength(v: Value, levels: nat)
    ensures Fits(v, levels) <==> forall path :: At(v, path).Some? ==> |path| < levels
  {
    if Fits(v, levels) {
      forall path | At(v, path).Some? ensures |path| < levels {
        PathFits(v, levels, path);
      }
    } else {
      var path := TooDeep(v, levels);
    }
  }

  lemma {:induction false} PathFits(v: Value, levels: int, path: seq<Step>)
    requires Fits(v, levels) && At(v, path).Some?
    ensures |path| < levels
    decreases |path|
  {
    if path != [] {
      match path[0]
      case Field(key) => PathFits(v.fields[key], levels - 1, path[1..]);
      case Item(i) => PathFits(v.items[i], levels - 1, path[1..]);
    }
  }

  lemma {:induction false} TooDeep(v: Value, levels: nat) returns (path: seq<Step>)
    requires !Fits(v, levels)
    ensures At(v, path).Some? && |path| == levels
  {
    if levels == 0 {
      return [];
    }
    match v
    case Object(fields) =>
      var key :| key in fields && !Fits(fields[key], levels - 1);
      var rest := TooDeep(fields[key], levels - 1);
      path := [Field(key)] + rest;
      assert path[1..] == rest;
    case List(items) =>
      var i :| 0 <= i < |items| && !Fits(items[i], levels - 1);
      var rest := TooDeep(items[i], levels - 1);
      path := [Item(i)] + rest;
      assert path[1..] == rest;
    case _ =>
  }

  lemma {:induction false} SumShrinks<K>(small: map<K, nat>, big: map<K, nat>)
    requires small.Keys <= big.Keys && forall k <- small :: small[k] <= big[k]
    ensures Sum(small, small.Keys) <= Sum(big, big.Keys)
  {
    SumBelow(small, small.Keys, big, big.Keys);
  }

  lemma {:induction false} SumBelow<K>(small: map<K, nat>, some: set<K>, big: map<K, nat>, all: set<K>)
    requires some <= small.Keys && all <= big.Keys && some <= all && forall k <- some :: small[k] <= big[k]
    ensures Sum(small, some) <= Sum(big, all)
    decreases all
  {
    if all != {} {
      var k :| k in all;
      SumPick(big, all, k);
      if k in some {
        SumPick(small, some, k);
      }
      SumBelow(small, some - {k}, big, all - {k});
      assert k !in some ==> some - {k} == some;
    }
  }

  lemma {:induction false} RedactionFits(v: Value, levels: int)
    requires Fits(v, levels)
    ensures Fits(Redacted(v), levels)
  {
    match v
    case Object(fields) =>
      forall key | key in fields ensures Fits(Redacted(fields[key]), levels - 1) {
        RedactionFits(fields[key], levels - 1);
      }
    case List(items) =>
      forall i | 0 <= i < |items| ensures Fits(Redacted(items[i]), levels - 1) {
        RedactionFits(items[i], levels - 1);
      }
    case _ =>
  }

  lemma {:induction false} RedactionShrinks(v: Value)
    ensures Total(Redacted(v)) <= Total(v)
  {
    match v
    case Object(fields) =>
      forall key | key in fields ensures Total(Redacted(fields[key])) <= Total(fields[key]) {
        RedactionShrinks(fields[key]);
      }
      var small, big := Weights(RedactedFields(fields)), Weights(fields);
      assert small.Keys == RedactedFields(fields).Keys && big.Keys == fields.Keys;
      SumShrinks(small, big);
    case List(items) =>
      forall i | 0 <= i < |items| ensures Total(Redacted(items[i])) <= Total(items[i]) {
        RedactionShrinks(items[i]);
      }
      TotalOfShrinks(Redacted(v).items, items);
    case _ =>
  }

  lemma {:induction false} TotalOfShrinks(small: seq<Value>, big: seq<Value>)
    requires |small| == |big| && forall i :: 0 <= i < |big| ==> Total(small[i]) <= Total(big[i])
    ensures TotalOf(small) <= TotalOf(big)
  {
    if small != [] {
      TotalOfShrinks(small[..|small| - 1], big[..|big| - 1]);
    }
  }

  /** Redacting never turns an accepted payload into a rejected one. */
  lemma RedactionKeepsAccepted(fields: Fields)
    requires Accepted(fields)
    ensures Accepted(RedactedFields(fields))
  {
    RedactionFits(Object(fields), MAX_DEPTH);
    RedactionShrinks(Object(fields));
  }
}
