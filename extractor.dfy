/**
 * Extraction of line-delimited JSON: each line loses a trailing comma, is
 * parsed, has the awkward characters of its keys replaced by "_", and is routed
 * to the valid or the broken list by its entity's schema.
 */
module Extractor {
  import opened Common
  import opened Tables

  /** A parsed JSON line: its keys and values, in document order. */
  type JsonObject = seq<(string, Value)>

  /** The five entities that have a schema. */
  datatype Entity = Sales | Products | Orders | Customers | Countries

  /** The schema lookup: None where the dictionary of validators raises KeyError. */
  function EntityOf(jsonFileName: string): (e: Option<Entity>)
    ensures e.Some? <==> jsonFileName in ["sales", "products", "orders", "customers", "countries"]
  {
    match jsonFileName
    case "sales" => Some(Sales)
    case "products" => Some(Products)
    case "orders" => Some(Orders)
    case "customers" => Some(Customers)
    case "countries" => Some(Countries)
    case _ => None
  }

  /** The exceptions extraction lets escape. */
  datatype ExtractError =
    | IndexError            // a line shorter than two characters has no json_line[-2]
    | JsonDecodeError       // json.loads rejected the text
    | KeyError(name: string) // no schema for this file name

  // ---------------------------------------------------------------------------
  // _remove_final_comma

  /** The text handed to the JSON parser for one raw line (newline included). */
  function TextToParse(jsonLine: string): (r: Result<string, ExtractError>)
    ensures r.Failure? <==> |jsonLine| < 2
    ensures r.Failure? ==> r.error == IndexError
  {
    if |jsonLine| < 2 then Failure(IndexError)
    else if jsonLine[|jsonLine| - 2] == ',' then Success(jsonLine[..|jsonLine| - 2])
    else Success(jsonLine)
  }

  /** A line ending in ",\n" is parsed without those two characters. */
  lemma CommaLineLosesCommaAndNewline(text: string)
    ensures TextToParse(text + ",\n") == Success(text)
  {
    assert (text + ",\n")[..|text|] == text;
  }

  /** A line whose last character but one is not a comma reaches the parser unchanged. */
  lemma OtherLineUnchanged(text: string, last: char)
    requires text != [] && text[|text| - 1] != ','
    ensures TextToParse(text + [last]) == Success(text + [last])
  {
  }

  /** A final line "...}," without a newline keeps its comma: the parser gets it. */
  lemma FinalLineKeepsComma(text: string)
    requires text != [] && text[|text| - 1] != ','
    ensures TextToParse(text + ",") == Success(text + ",")
  {
    OtherLineUnchanged(text, ',');
  }

  /** The first cleaning function: strip the comma, then parse with json.loads (here `parse`). */
  function RemoveFinalComma(jsonLine: string, parse: string -> Option<JsonObject>): Result<JsonObject, ExtractError> {
    var text :- TextToParse(jsonLine);
    match parse(text)
    case Some(obj) => Success(obj)
    case None => Failure(JsonDecodeError)
  }

  // ---------------------------------------------------------------------------
  // _remove_undesired_characters_from_schema

  const UndesiredCharacters: seq<char> := [' ', '.', '(', ')', '$', '%']

  /** str.replace(c, r) for single characters: every occurrence of c becomes r. */
  function Replace(s: string, c: char, r: char): string {
    seq(|s|, j requires 0 <= j < |s| => if s[j] == c then r else s[j])
  }

  /** A key with every undesired character replaced by "_". */
  function NormaliseKey(key: string): string {
    seq(|key|, j requires 0 <= j < |key| => if key[j] in UndesiredCharacters then '_' else key[j])
  }

  function Keys(obj: JsonObject): seq<string> {
    seq(|obj|, i requires 0 <= i < |obj| => obj[i].0)
  }

  /** d[k] = v on an insertion-ordered dict: an existing key keeps its place, a new one goes last. */
  function Put(obj: JsonObject, k: string, v: Value): JsonObject {
    if obj == [] then [(k, v)]
    else if obj[0].0 == k then [(k, v)] + obj[1..]
    else [obj[0]] + Put(obj[1..], k, v)
  }

  /** The dict the loop builds: each pair stored under its normalised key, in order. */
  function NormalisedObject(obj: JsonObject): JsonObject {
    if obj == [] then []
    else
      var n := |obj| - 1;
      Put(NormalisedObject(obj[..n]), NormaliseKey(obj[n].0), obj[n].1)
  }

  /**
   * The second cleaning function. For every key it walks the key's original
   * characters and, for each undesired one, replaces all its occurrences.
   */
  method RemoveUndesiredCharactersFromSchema(jsonLine: JsonObject) returns (renamed: JsonObject)
    ensures renamed == NormalisedObject(jsonLine)
  {
    renamed := [];
    for i := 0 to |jsonLine|
      invariant renamed == NormalisedObject(jsonLine[..i])
    {
      var original := jsonLine[i].0;
      var key := original;
      for j := 0 to |original|
        invariant |key| == |original|
        invariant forall m :: 0 <= m < |original| ==>
          key[m] == if original[m] in UndesiredCharacters && original[m] in original[..j] then '_' else original[m]
      {
        var character := original[j];
        if character in UndesiredCharacters {
          key := Replace(key, character, '_');
        }
        assert original[..j + 1] == original[..j] + [character];
      }
      assert original[..|original|] == original;
      assert key == NormaliseKey(original);
      assert jsonLine[..i + 1][..i] == jsonLine[..i];
      renamed := Put(renamed, key, jsonLine[i].1);
    }
    assert jsonLine[..|jsonLine|] == jsonLine;
  }

  // ---------------------------------------------------------------------------
  // _validate_json_line_schema and Storage

  /** The valid and the broken lines, filled in place. */
  class Storage {
    var jsonLines: seq<JsonObject>
    var jsonLinesBroken: seq<JsonObject>

    constructor ()
      ensures jsonLines == [] && jsonLinesBroken == []
    {
      jsonLines := [];
      jsonLinesBroken := [];
    }
  }

  /**
   * Where a line goes: true for the valid list, false for the broken one, and
   * KeyError for a file name without a schema. `accepts` is the entity's
   * pydantic schema check.
   */
  function Route(jsonFileName: string, jsonLine: JsonObject, accepts: (Entity, JsonObject) -> bool)
    : Result<bool, ExtractError>
  {
    match EntityOf(jsonFileName)
    case None => Failure(KeyError(jsonFileName))
    case Some(e) => Success(accepts(e, jsonLine))
  }

  /**
   * Appends the line to exactly one of the storage's lists and returns that
   * list; an unknown file name raises before anything is appended.
   */
  method ValidateJsonLineSchema(jsonFileName: string, jsonLine: JsonObject, storage: Storage,
                                accepts: (Entity, JsonObject) -> bool)
    returns (r: Result<seq<JsonObject>, ExtractError>)
    modifies storage
    ensures Route(jsonFileName, jsonLine, accepts).Failure? ==>
      && r == Failure(KeyError(jsonFileName))
      && storage.jsonLines == old(storage.jsonLines)
      && storage.jsonLinesBroken == old(storage.jsonLinesBroken)
    ensures Route(jsonFileName, jsonLine, accepts) == Success(true) ==>
      && storage.jsonLines == old(storage.jsonLines) + [jsonLine]
      && storage.jsonLinesBroken == old(storage.jsonLinesBroken)
      && r == Success(storage.jsonLines)
    ensures Route(jsonFileName, jsonLine, accepts) == Success(false) ==>
      && storage.jsonLines == old(storage.jsonLines)
      && storage.jsonLinesBroken == old(storage.jsonLinesBroken) + [jsonLine]
      && r == Success(storage.jsonLinesBroken)
  {
    var validator := EntityOf(jsonFileName);
    if validator.None? {
      return Failure(KeyError(jsonFileName));
    }
    if accepts(validator.value, jsonLine) {
      storage.jsonLines := storage.jsonLines + [jsonLine];
      return Success(storage.jsonLines);
    } else {
      storage.jsonLinesBroken := storage.jsonLinesBroken + [jsonLine];
      return Success(storage.jsonLinesBroken);
    }
  }

  // ---------------------------------------------------------------------------
  // extract_data_from_json_file

  /** Both cleaning functions, in order. */
  function CleanLine(jsonLine: string, parse: string -> Option<JsonObject>): Result<JsonObject, ExtractError> {
    var obj :- RemoveFinalComma(jsonLine, parse);
    Success(NormalisedObject(obj))
  }

  /** The (valid, broken) lists after the given lines, or the first exception. */
  function ExtractLines(jsonFileName: string, lines: seq<string>, parse: string -> Option<JsonObject>,
                        accepts: (Entity, JsonObject) -> bool): Result<(seq<JsonObject>, seq<JsonObject>), ExtractError>
  {
    if lines == [] then Success(([], []))
    else
      var n := |lines| - 1;
      var lists :- ExtractLines(jsonFileName, lines[..n], parse, accepts);
      var obj :- CleanLine(lines[n], parse);
      var valid :- Route(jsonFileName, obj, accepts);
      if valid then Success((lists.0 + [obj], lists.1)) else Success((lists.0, lists.1 + [obj]))
  }

  lemma {:induction false} ExtractLinesStops(jsonFileName: string, lines: seq<string>, k: nat,
                                             parse: string -> Option<JsonObject>, accepts: (Entity, JsonObject) -> bool)
    requires k <= |lines|
    requires ExtractLines(jsonFileName, lines[..k], parse, accepts).Failure?
    ensures ExtractLines(jsonFileName, lines, parse, accepts) == ExtractLines(jsonFileName, lines[..k], parse, accepts)
  {
    if k < |lines| {
      assert lines[..|lines| - 1][..k] == lines[..k];
      ExtractLinesStops(jsonFileName, lines[..|lines| - 1], k, parse, accepts);
    } else {
      assert lines[..k] == lines;
    }
  }

  /** One more line that cleans and routes is appended to the list it is routed to. */
  lemma ExtractLinesStep(jsonFileName: string, lines: seq<string>, i: nat,
                         parse: string -> Option<JsonObject>, accepts: (Entity, JsonObject) -> bool)
    requires i < |lines|
    requires ExtractLines(jsonFileName, lines[..i], parse, accepts).Success?
    requires CleanLine(lines[i], parse).Success?
    requires Route(jsonFileName, CleanLine(lines[i], parse).value, accepts).Success?
    ensures var lists := ExtractLines(jsonFileName, lines[..i], parse, accepts).value;
      var obj := CleanLine(lines[i], parse).value;
      ExtractLines(jsonFileName, lines[..i + 1], parse, accepts)
        == if Route(jsonFileName, obj, accepts).value then Success((lists.0 + [obj], lists.1))
           else Success((lists.0, lists.1 + [obj]))
  {
    assert lines[..i + 1][..i] == lines[..i];
  }

  /**
   * Reads the file's lines (given here as `lines`) into a fresh Storage, so
   * nothing is carried over from an earlier call.
   */
  method ExtractDataFromJsonFile(jsonFileName: string, lines: seq<string>, parse: string -> Option<JsonObject>,
                                 accepts: (Entity, JsonObject) -> bool)
    returns (r: Result<(seq<JsonObject>, seq<JsonObject>), ExtractError>)
    ensures r == ExtractLines(jsonFileName, lines, parse, accepts)
  {
    var storage := new Storage();
    for i := 0 to |lines|
      invariant ExtractLines(jsonFileName, lines[..i], parse, accepts) == Success((storage.jsonLines, storage.jsonLinesBroken))
    {
      var parsed := RemoveFinalComma(lines[i], parse);
      if parsed.Failure? {
        assert ExtractLines(jsonFileName, lines[..i + 1], parse, accepts) == Failure(parsed.error) by {
          assert lines[..i + 1][..i] == lines[..i];
        }
        ExtractLinesStops(jsonFileName, lines, i + 1, parse, accepts);
        return Failure(parsed.error);
      }
      var jsonLine := RemoveUndesiredCharactersFromSchema(parsed.value);
      assert CleanLine(lines[i], parse) == Success(jsonLine);
      if Route(jsonFileName, jsonLine, accepts).Failure? {
        assert ExtractLines(jsonFileName, lines[..i + 1], parse, accepts) == Failure(KeyError(jsonFileName)) by {
          assert lines[..i + 1][..i] == lines[..i];
        }
      } else {
        ExtractLinesStep(jsonFileName, lines, i, parse, accepts);
      }
      var routed := ValidateJsonLineSchema(jsonFileName, jsonLine, storage, accepts);
      if routed.Failure? {
        ExtractLinesStops(jsonFileName, lines, i + 1, parse, accepts);
        return Failure(routed.error);
      }
    }
    assert lines[..|lines|] == lines;
    return Success((storage.jsonLines, storage.jsonLinesBroken));
  }
}
