/**
 * A decoded NVD JSON document, and the few Python operations the loader
 * performs on it: `v[key]`, `v.keys()`, `for x in v`, `x == True` and
 * `sep.join(values)`. Each either yields a value or raises, exactly where
 * Python would.
 */
module Json {
  import opened Wrappers
  import PyStr

  /** A JSON number as json.loads returns it: an int, or a float kept as its literal text. */
  datatype Num = Int(i: int) | Float(literal: string)

  /**
   * An object keeps its members in the order they appear in the text, duplicates
   * included; `Keys` and `Lookup` give the view json.loads builds from them.
   */
  datatype JValue =
    | JNull
    | JBool(b: bool)
    | JNum(n: Num)
    | JStr(s: string)
    | JArr(items: seq<JValue>)
    | JObj(members: seq<(string, JValue)>)

  /** Member names in order of first appearance: a Python dict keeps the first position of a repeated key. */
  function DistinctNames(members: seq<(string, JValue)>): seq<string>
  {
    if |members| == 0 then []
    else
      var prefix := DistinctNames(members[..|members| - 1]);
      var k := members[|members| - 1].0;
      if k in prefix then prefix else prefix + [k]
  }

  /** The keys of a dict are the member names, each listed once. */
  lemma {:induction false} DistinctNamesSpec(members: seq<(string, JValue)>)
    ensures forall k :: k in DistinctNames(members) <==> exists i :: 0 <= i < |members| && members[i].0 == k
    ensures forall i, j :: 0 <= i < j < |DistinctNames(members)| ==> DistinctNames(members)[i] != DistinctNames(members)[j]
  {
    if |members| > 0 {
      var init := members[..|members| - 1];
      DistinctNamesSpec(init);
      assert forall i :: 0 <= i < |init| ==> init[i] == members[i];
    }
  }

  /** The value of a key: the last member with that name, as a Python dict overwrites earlier ones. */
  function LastValue(members: seq<(string, JValue)>, key: string): Option<JValue>
  {
    if |members| == 0 then None
    else if members[|members| - 1].0 == key then Some(members[|members| - 1].1)
    else LastValue(members[..|members| - 1], key)
  }

  /**
   * A key has a value exactly when some member carries it, and the value is
   * that of the last member carrying it: no later member has the same name.
   */
  lemma {:induction false} LastValueSpec(members: seq<(string, JValue)>, key: string)
    ensures LastValue(members, key).Some? <==> exists i :: 0 <= i < |members| && members[i].0 == key
    ensures LastValue(members, key).Some? ==>
      exists i :: 0 <= i < |members| && members[i] == (key, LastValue(members, key).value) &&
        forall j :: i < j < |members| ==> members[j].0 != key
  {
    if |members| > 0 {
      var last := |members| - 1;
      if members[last].0 == key {
        assert members[last] == (key, LastValue(members, key).value);
      } else {
        var init := members[..last];
        LastValueSpec(init, key);
        assert forall i :: 0 <= i < |init| ==> init[i] == members[i];
        if LastValue(members, key).Some? {
          var i :| 0 <= i < |init| && init[i] == (key, LastValue(init, key).value) &&
            forall j :: i < j < |init| ==> init[j].0 != key;
          assert forall j :: i < j < |members| ==> members[j].0 != key;
        }
      }
    }
  }

  /** v[key]: KeyError for a dict without the key, TypeError for anything that is not a dict. */
  function Lookup(v: JValue, key: string): (r: Result<JValue>)
    ensures r.Ok? ==> v.JObj?
    ensures r.Err? && v.JObj? ==> r.error == KeyError
    ensures !v.JObj? ==> r == Err(TypeError)
  {
    match v
    case JObj(members) =>
      (match LastValue(members, key)
       case Some(x) => Ok(x)
       case None => Err(KeyError))
    case _ => Err(TypeError)
  }

  /** A dict lookup succeeds exactly for the keys the dict lists. */
  lemma LookupFindsKeys(v: JValue, key: string)
    requires v.JObj?
    ensures Lookup(v, key).Ok? <==> key in DistinctNames(v.members)
  {
    DistinctNamesSpec(v.members);
    LastValueSpec(v.members, key);
  }

  /** v[k0][k1]...: a chain of lookups that stops at the first failure. */
  function Path(v: JValue, keys: seq<string>): Result<JValue>
    decreases |keys|
  {
    if |keys| == 0 then Ok(v)
    else
      var x :- Lookup(v, keys[0]);
      Path(x, keys[1..])
  }

  /** Following `keys + more` is following `keys`, then `more` from where it led. */
  lemma {:induction false} PathAppend(v: JValue, keys: seq<string>, more: seq<string>)
    ensures Path(v, keys + more) == (match Path(v, keys) case Ok(x) => Path(x, more) case Err(e) => Err(e))
    decreases |keys|
  {
    if |keys| == 0 {
      assert keys + more == more;
    } else {
      assert (keys + more)[0] == keys[0];
      assert (keys + more)[1..] == keys[1..] + more;
      var x := Lookup(v, keys[0]);
      if x.Ok? {
        PathAppend(x.value, keys[1..], more);
      }
    }
  }

  /** v.keys(): only a dict has them; anything else raises AttributeError. */
  function Keys(v: JValue): (r: Result<seq<string>>)
    ensures r.Ok? <==> v.JObj?
    ensures r.Err? ==> r.error == AttributeError
  {
    if v.JObj? then Ok(DistinctNames(v.members)) else Err(AttributeError)
  }

  /** Every key listed by v.keys() can be looked up, and each is listed once. */
  lemma KeysLookup(v: JValue)
    requires v.JObj?
    ensures forall k :: k in Keys(v).value ==> Lookup(v, k).Ok?
    ensures forall i, j :: 0 <= i < j < |Keys(v).value| ==> Keys(v).value[i] != Keys(v).value[j]
  {
    DistinctNamesSpec(v.members);
    forall k | k in Keys(v).value
      ensures Lookup(v, k).Ok?
    {
      LookupFindsKeys(v, k);
    }
  }

  /** `for x in v`: a list yields its items, a dict its keys, a string its characters; the rest raise TypeError. */
  function Iterate(v: JValue): (r: Result<seq<JValue>>)
    ensures r.Err? <==> v.JNull? || v.JBool? || v.JNum?
    ensures v.JArr? ==> r == Ok(v.items)
    ensures r.Ok? ==> forall i :: 0 <= i < |r.value| ==> r.value[i].JObj? ==> v.JArr?
  {
    match v
    case JArr(items) => Ok(items)
    case JObj(members) =>
      var names := DistinctNames(members);
      Ok(seq(|names|, i requires 0 <= i < |names| => JStr(names[i])))
    case JStr(s) => Ok(seq(|s|, i requires 0 <= i < |s| => JStr([s[i]])))
    case _ => Err(TypeError)
  }

  /** `v == True`: true for True and for the int 1. */
  predicate EqualsTrue(v: JValue) {
    v == JBool(true) || v == JNum(Int(1))
  }

  predicate AllStrings(vals: seq<JValue>) {
    forall i :: 0 <= i < |vals| ==> vals[i].JStr?
  }

  function Texts(vals: seq<JValue>): (r: seq<string>)
    requires AllStrings(vals)
    ensures |r| == |vals| && forall i :: 0 <= i < |vals| ==> vals[i] == JStr(r[i])
  {
    seq(|vals|, i requires 0 <= i < |vals| => vals[i].s)
  }

  /** sep.join(vals): TypeError as soon as one value is not a string. */
  function JoinStrings(vals: seq<JValue>, sep: string): (r: Result<string>)
    ensures r.Ok? <==> AllStrings(vals)
    ensures r.Err? ==> r.error == TypeError
  {
    if AllStrings(vals) then Ok(PyStr.Join(Texts(vals), sep)) else Err(TypeError)
  }

  /** A comma-joined list of strings without commas splits back into exactly those strings. */
  lemma JoinStringsSplits(vals: seq<JValue>)
    requires |vals| > 0 && AllStrings(vals)
    requires forall i :: 0 <= i < |vals| ==> ',' !in vals[i].s
    ensures JoinStrings(vals, ",").Ok?
    ensures PyStr.Split(JoinStrings(vals, ",").value, ',') == Texts(vals)
  {
    PyStr.SplitJoin(Texts(vals), ',');
  }
}
