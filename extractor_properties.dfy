/**
 * What line cleaning and routing guarantee: the comma rule, clean keys whose
 * later values win, order kept, and every line in exactly one list.
 */
module ExtractorProperties {
  import opened Common
  import opened Tables
  import opened Extractor

  // ---------------------------------------------------------------------------
  // Keys

  /** A normalised key has the same length and none of the undesired characters. */
  lemma NormalisedKeyIsClean(key: string)
    ensures |NormaliseKey(key)| == |key|
    ensures forall c :: c in UndesiredCharacters ==> c !in NormaliseKey(key)
  {
    var k := NormaliseKey(key);
    forall c | c in UndesiredCharacters ensures c !in k {
      forall j | 0 <= j < |k| ensures k[j] != c {
      }
    }
  }

  /** A key without undesired characters is left alone, so normalising twice changes nothing more. */
  lemma NormaliseKeyIdempotent(key: string)
    ensures NormaliseKey(NormaliseKey(key)) == NormaliseKey(key)
  {
    NormalisedKeyIsClean(key);
    CleanKeyUnchanged(NormaliseKey(key));
  }

  lemma CleanKeyUnchanged(key: string)
    requires forall c :: c in UndesiredCharacters ==> c !in key
    ensures NormaliseKey(key) == key
  {
    forall j | 0 <= j < |key| ensures NormaliseKey(key)[j] == key[j] {
      assert key[j] in key;
    }
  }

  // ---------------------------------------------------------------------------
  // The dict built from the normalised keys

  /** d.get(k): the value stored under `k`. */
  function Lookup(obj: JsonObject, k: string): Option<Value> {
    if obj == [] then None
    else if obj[0].0 == k then Some(obj[0].1)
    else Lookup(obj[1..], k)
  }

  /** The value of the last pair of `obj` whose key normalises to `k`. */
  function LastValue(obj: JsonObject, k: string): Option<Value> {
    if obj == [] then None
    else
      var n := |obj| - 1;
      if NormaliseKey(obj[n].0) == k then Some(obj[n].1) else LastValue(obj[..n], k)
  }

  lemma {:induction false} LookupPut(obj: JsonObject, k: string, v: Value, q: string)
    ensures Lookup(Put(obj, k, v), q) == if q == k then Some(v) else Lookup(obj, q)
  {
    if obj != [] && obj[0].0 != k {
      LookupPut(obj[1..], k, v, q);
    }
  }

  /**
   * Looking a key up in the cleaned line finds the value of the last original
   * key that normalises to it: values are carried over and the later one wins.
   */
  lemma {:induction false} NormalisedLookup(obj: JsonObject, k: string)
    ensures Lookup(NormalisedObject(obj), k) == LastValue(obj, k)
  {
    if obj != [] {
      var n := |obj| - 1;
      NormalisedLookup(obj[..n], k);
      LookupPut(NormalisedObject(obj[..n]), NormaliseKey(obj[n].0), obj[n].1, k);
    }
  }

  /** The distinct elements of `s`, in order of first appearance. */
  function Dedup(s: seq<string>): (d: seq<string>)
    ensures Distinct(d)
    ensures forall x :: x in d <==> x in s
  {
    if s == [] then []
    else
      var n := |s| - 1;
      var d := Dedup(s[..n]);
      assert s == s[..n] + [s[n]];
      if s[n] in d then d else d + [s[n]]
  }

  function NormalisedKeys(obj: JsonObject): seq<string> {
    seq(|obj|, i requires 0 <= i < |obj| => NormaliseKey(obj[i].0))
  }

  lemma {:induction false} KeysPut(obj: JsonObject, k: string, v: Value)
    ensures Keys(Put(obj, k, v)) == if k in Keys(obj) then Keys(obj) else Keys(obj) + [k]
  {
    if obj != [] {
      assert Keys(obj) == [obj[0].0] + Keys(obj[1..]);
      if obj[0].0 != k {
        KeysPut(obj[1..], k, v);
        assert Keys(Put(obj, k, v)) == [obj[0].0] + Keys(Put(obj[1..], k, v));
      } else {
        assert Keys(Put(obj, k, v)) == [k] + Keys(obj[1..]);
      }
    }
  }

  /**
   * The cleaned line's keys are the normalised keys in order of first
   * appearance, each once.
   */
  lemma {:induction false} NormalisedKeyOrder(obj: JsonObject)
    ensures Keys(NormalisedObject(obj)) == Dedup(NormalisedKeys(obj))
    ensures Distinct(Keys(NormalisedObject(obj)))
  {
    if obj != [] {
      var n := |obj| - 1;
      NormalisedKeyOrder(obj[..n]);
      assert NormalisedKeys(obj)[..n] == NormalisedKeys(obj[..n]);
      KeysPut(NormalisedObject(obj[..n]), NormaliseKey(obj[n].0), obj[n].1);
    }
  }

  lemma {:induction false} PutNewKey(obj: JsonObject, k: string, v: Value)
    requires k !in Keys(obj)
    ensures Put(obj, k, v) == obj + [(k, v)]
  {
    if obj != [] {
      assert obj[0].0 == Keys(obj)[0];
      assert Keys(obj[1..]) == Keys(obj)[1..];
      PutNewKey(obj[1..], k, v);
      assert obj == [obj[0]] + obj[1..];
    }
  }

  /** A line with distinct, already clean keys comes through unchanged. */
  lemma {:induction false} CleanObjectUnchanged(obj: JsonObject)
    requires Distinct(Keys(obj))
    requires forall i :: 0 <= i < |obj| ==> NormaliseKey(obj[i].0) == obj[i].0
    ensures NormalisedObject(obj) == obj
  {
    if obj != [] {
      var n := |obj| - 1;
      assert Keys(obj[..n]) == Keys(obj)[..n];
      assert Distinct(Keys(obj[..n])) by {
        forall a, b | 0 <= a < b < n ensures Keys(obj[..n])[a] != Keys(obj[..n])[b] {
          assert Keys(obj)[a] != Keys(obj)[b];
        }
      }
      CleanObjectUnchanged(obj[..n]);
      assert obj[n].0 !in Keys(obj[..n]) by {
        forall a | 0 <= a < n ensures Keys(obj[..n])[a] != obj[n].0 {
          assert Keys(obj)[a] != Keys(obj)[n];
        }
      }
      PutNewKey(obj[..n], obj[n].0, obj[n].1);
      assert obj == obj[..n] + [obj[n]];
    }
  }

  /** Cleaning a cleaned line again changes nothing. */
  lemma NormalisedObjectIdempotent(obj: JsonObject)
    ensures NormalisedObject(NormalisedObject(obj)) == NormalisedObject(obj)
  {
    var once := NormalisedObject(obj);
    NormalisedKeyOrder(obj);
    forall i | 0 <= i < |once| ensures NormaliseKey(once[i].0) == once[i].0 {
      assert once[i].0 == Keys(once)[i];
      assert once[i].0 in NormalisedKeys(obj);
      var j :| 0 <= j < |obj| && NormalisedKeys(obj)[j] == once[i].0;
      NormaliseKeyIdempotent(obj[j].0);
    }
    CleanObjectUnchanged(once);
  }

  // ---------------------------------------------------------------------------
  // The line loop

  /** The cleaned form of every line, when every line cleans. */
  function CleanedLines(lines: seq<string>, parse: string -> Option<JsonObject>): seq<JsonObject>
    requires forall i :: 0 <= i < |lines| ==> CleanLine(lines[i], parse).Success?
  {
    seq(|lines|, i requires 0 <= i < |lines| => CleanLine(lines[i], parse).value)
  }

  /** The objects the schema check accepts (keep == true) or rejects (keep == false), in order. */
  function Filter(objs: seq<JsonObject>, e: Entity, accepts: (Entity, JsonObject) -> bool, keep: bool): seq<JsonObject> {
    if objs == [] then []
    else (if accepts(e, objs[0]) == keep then [objs[0]] else []) + Filter(objs[1..], e, accepts, keep)
  }

  lemma {:induction false} FilterSnoc(objs: seq<JsonObject>, o: JsonObject, e: Entity,
                                      accepts: (Entity, JsonObject) -> bool, keep: bool)
    ensures Filter(objs + [o], e, accepts, keep)
         == Filter(objs, e, accepts, keep) + (if accepts(e, o) == keep then [o] else [])
  {
    if objs == [] {
      assert [o][1..] == [];
    } else {
      assert (objs + [o])[1..] == objs[1..] + [o];
      FilterSnoc(objs[1..], o, e, accepts, keep);
    }
  }

  lemma {:induction false} FilterSplit(objs: seq<JsonObject>, e: Entity, accepts: (Entity, JsonObject) -> bool)
    ensures |Filter(objs, e, accepts, true)| + |Filter(objs, e, accepts, false)| == |objs|
  {
    if objs != [] {
      FilterSplit(objs[1..], e, accepts);
    }
  }

  /**
   * Extraction raises exactly when some line fails to clean (too short, or not
   * JSON) or when there is a line and the file name has no schema.
   */
  lemma {:induction false} ExtractionSucceeds(jsonFileName: string, lines: seq<string>,
                                              parse: string -> Option<JsonObject>, accepts: (Entity, JsonObject) -> bool)
    ensures ExtractLines(jsonFileName, lines, parse, accepts).Success?
        <==> (forall i :: 0 <= i < |lines| ==> CleanLine(lines[i], parse).Success?)
             && (lines != [] ==> EntityOf(jsonFileName).Some?)
  {
    if lines != [] {
      var n := |lines| - 1;
      ExtractionSucceeds(jsonFileName, lines[..n], parse, accepts);
      assert forall i :: 0 <= i < n ==> lines[..n][i] == lines[i];
      assert (forall i :: 0 <= i < |lines| ==> CleanLine(lines[i], parse).Success?)
        <==> (forall i :: 0 <= i < n ==> CleanLine(lines[..n][i], parse).Success?) && CleanLine(lines[n], parse).Success?;
    }
  }

  /**
   * On success the valid list holds the cleaned lines the schema accepts and
   * the broken list the others, both in file order; together they hold every
   * line once.
   */
  lemma {:induction false} ExtractionPartitions(jsonFileName: string, lines: seq<string>,
                                                parse: string -> Option<JsonObject>, accepts: (Entity, JsonObject) -> bool)
    requires ExtractLines(jsonFileName, lines, parse, accepts).Success?
    ensures forall i :: 0 <= i < |lines| ==> CleanLine(lines[i], parse).Success?
    ensures lines != [] ==> EntityOf(jsonFileName).Some?
    ensures var lists := ExtractLines(jsonFileName, lines, parse, accepts).value;
      && |lists.0| + |lists.1| == |lines|
      && (lines != [] ==>
            var e := EntityOf(jsonFileName).value;
            && lists.0 == Filter(CleanedLines(lines, parse), e, accepts, true)
            && lists.1 == Filter(CleanedLines(lines, parse), e, accepts, false))
  {
    ExtractionSucceeds(jsonFileName, lines, parse, accepts);
    if lines != [] {
      var n := |lines| - 1;
      var e := EntityOf(jsonFileName).value;
      ExtractionPartitions(jsonFileName, lines[..n], parse, accepts);
      var objs := CleanedLines(lines, parse);
      assert CleanedLines(lines[..n], parse) == objs[..n];
      assert objs == objs[..n] + [objs[n]];
      FilterSnoc(objs[..n], objs[n], e, accepts, true);
      FilterSnoc(objs[..n], objs[n], e, accepts, false);
      if n == 0 {
        assert objs[..n] == [];
      }
    }
  }
}
