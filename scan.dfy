/**
 * What happens to the text of a decoded QR code: it is read as a game
 * launch (four formats, tried in a fixed order) or else as a number of
 * points, and handed to the game or to the ledger.
 *
 * Decoding the camera image and `JSON.parse` itself are outside the model:
 * the scanner hands over a string, and the outcome of parsing it as JSON is
 * an input (`JsonDecoded`).
 */
module Scan {
  import opened Wrappers
  import opened Text
  import Points
  import Games

  /** A game launch read from a QR code: a non-empty game name and base points. */
  datatype Payload = Payload(game: string, points: int)

  /**
   * The result of `JSON.parse` on the text: a syntax error, or an object
   * whose `game`, `title` and `points` members are given as the text
   * `String(...)` makes of them. `game` and `title` are empty when absent
   * or falsy; `points` is empty only when absent, since `String(0)` is `0`.
   */
  datatype JsonDecoded = Malformed | Object(game: string, title: string, points: string)

  predicate Launchable(r: Option<Payload>) {
    r.Some? ==> r.value.game != []
  }

  // ----- parseNumericValue -----

  /** Where the first match of `-?\d+` starts. */
  predicate NumberStartsAt(s: string, i: nat)
    requires i < |s|
  {
    IsDigit(s[i]) || (s[i] == '-' && i + 1 < |s| && IsDigit(s[i + 1]))
  }

  /** `-?\d+` matched at the very start of `s`, read as `parseInt` reads it. */
  function SignedNumber(s: string): (r: Option<int>)
    ensures r.Some? <==> |s| > 0 && NumberStartsAt(s, 0)
  {
    if |s| > 1 && s[0] == '-' && IsDigit(s[1]) then
      var v: int := DigitsValue(s[1..][..DigitRun(s[1..])]);
      Some(-v)
    else if |s| > 0 && IsDigit(s[0]) then Some(DigitsValue(s[..DigitRun(s)]))
    else None
  }

  /** A number written by `String` reads back, whatever non-digit text follows it. */
  lemma SignedNumberOfIntToString(n: int, rest: string)
    requires rest == [] || !IsDigit(rest[0])
    ensures SignedNumber(IntToString(n) + rest) == Some(n)
  {
    var ds := NatToString(if n < 0 then -n else n);
    DigitRunOfPrefix(ds, rest);
    IntToStringParts(n);
    if n < 0 {
      SignDropped(ds, rest);
    }
  }

  /**
   * `parseNumericValue`: the integer written by the first match of `-?\d+`;
   * `None` when the text holds no digit at all.
   */
  function NumericValue(s: string): (r: Option<int>)
    ensures r.None? <==> forall i :: 0 <= i < |s| ==> !IsDigit(s[i])
  {
    if s == [] then None
    else if NumberStartsAt(s, 0) then SignedNumber(s)
    else
      var r := NumericValue(s[1..]);
      assert forall i :: 1 <= i < |s| ==> s[i] == s[1..][i - 1];
      r
  }

  /** A number before any digit-free text is read back exactly. */
  lemma NumericValueOfIntToString(n: int, rest: string)
    requires rest == [] || !IsDigit(rest[0])
    ensures NumericValue(IntToString(n) + rest) == Some(n)
  {
    SignedNumberOfIntToString(n, rest);
    var s := IntToString(n) + rest;
    assert NumberStartsAt(s, 0);
  }

  /** Text before the number that holds no digit and no minus sign is skipped. */
  lemma {:induction false} NumericValueSkipsPrefix(junk: string, s: string)
    requires forall i :: 0 <= i < |junk| ==> !IsDigit(junk[i]) && junk[i] != '-'
    ensures NumericValue(junk + s) == NumericValue(s)
  {
    if junk == [] {
      assert junk + s == s;
    } else {
      var t := junk + s;
      assert t[0] == junk[0];
      assert !NumberStartsAt(t, 0);
      assert t[1..] == junk[1..] + s;
      NumericValueSkipsPrefix(junk[1..], s);
      assert NumericValue(t) == NumericValue(t[1..]);
    }
  }

  // ----- parseJsonPayload -----

  /** A payload from a name and the text of a number: the name trimmed and non-empty, the number an integer. */
  function PayloadOf(name: string, number: string): (r: Option<Payload>)
    ensures Launchable(r)
    ensures r.Some? <==> Trim(name) != [] && ParseInt(number).Some?
    ensures r.Some? ==> r.value == Payload(Trim(name), ParseInt(number).value)
  {
    var game := Trim(name);
    var value := ParseInt(number);
    if game == [] || value.None? then None else Some(Payload(game, value.value))
  }

  /** `parseJsonPayload`: only text wrapped in braces; `game`, else `title`, trimmed, and integer `points`. */
  function JsonPayload(text: string, decoded: JsonDecoded): (r: Option<Payload>)
    ensures Launchable(r)
    ensures r.Some? ==> |text| >= 2 && text[0] == '{' && text[|text| - 1] == '}'
  {
    if |text| < 2 || text[0] != '{' || text[|text| - 1] != '}' then None
    else match decoded
      case Malformed => None
      case Object(game, title, points) => PayloadOf(if game != [] then game else title, points)
  }

  /**
   * Braced text decoded to an object: the name is `game`, or `title` when
   * `game` is empty, and the points are the integer `points` holds.
   */
  lemma JsonPayloadOfObject(text: string, game: string, title: string, points: string)
    requires |text| >= 2 && text[0] == '{' && text[|text| - 1] == '}'
    ensures JsonPayload(text, Object(game, title, points)) == PayloadOf(if game != [] then game else title, points)
    ensures game != [] && Trim(game) != [] && ParseInt(points).Some? ==>
      JsonPayload(text, Object(game, title, points)) == Some(Payload(Trim(game), ParseInt(points).value))
    ensures game == [] && Trim(title) != [] && ParseInt(points).Some? ==>
      JsonPayload(text, Object(game, title, points)) == Some(Payload(Trim(title), ParseInt(points).value))
  {
  }

  /** Text that is not wrapped in braces, or that `JSON.parse` rejects, is no JSON payload. */
  lemma JsonPayloadNeedsObject(text: string, decoded: JsonDecoded)
    requires decoded.Malformed? || text == [] || text[0] != '{'
    ensures JsonPayload(text, decoded).None?
  {
  }

  // ----- parseQueryPayload -----

  /** The name of a `name=value` field: everything before the first `=`. */
  function FieldName(field: string): string {
    field[..IndexOf(field, '=')]
  }

  /** The value of a `name=value` field: everything after the first `=`, empty without one. */
  function FieldValue(field: string): string {
    var k := IndexOf(field, '=');
    if k < |field| then field[k + 1..] else ""
  }

  /** `URLSearchParams.get` over the fields: the value of the first field with that name. */
  function QueryGet(fields: seq<string>, name: string): (r: Option<string>)
    ensures r.Some? <==> exists i :: 0 <= i < |fields| && FieldName(fields[i]) == name
    ensures r.Some? ==>
      exists i :: (0 <= i < |fields| && FieldName(fields[i]) == name
                   && r.value == FieldValue(fields[i])
                   && forall j :: 0 <= j < i ==> FieldName(fields[j]) != name)
  {
    if fields == [] then None
    else if FieldName(fields[0]) == name then Some(FieldValue(fields[0]))
    else
      var r := QueryGet(fields[1..], name);
      assert forall i :: 1 <= i < |fields| ==> fields[i] == fields[1..][i - 1];
      if r.Some? then
        var i :| 0 <= i < |fields[1..]| && FieldName(fields[1..][i]) == name
          && r.value == FieldValue(fields[1..][i])
          && forall j :: 0 <= j < i ==> FieldName(fields[1..][j]) != name;
        assert FieldName(fields[i + 1]) == name;
        r
      else r
  }

  /** The `&`-separated fields of a query, after a leading `?` is dropped. */
  function QueryFields(query: string): seq<string> {
    Split(if |query| > 0 && query[0] == '?' then query[1..] else query, {'&'})
  }

  /**
   * `parseQueryPayload`: only text mentioning `game=` or `points=`; `;`
   * separates fields like `&`; the first `game` (trimmed, non-empty) and the
   * first `points` (an integer) make the payload.
   */
  function QueryPayload(text: string): (r: Option<Payload>)
    ensures Launchable(r)
    ensures r.Some? ==> Contains(text, "game=") || Contains(text, "points=")
  {
    if !Contains(text, "game=") && !Contains(text, "points=") then None
    else
      var fields := QueryFields(ReplaceAll(text, ';', '&'));
      var points := QueryGet(fields, "points");
      if points.None? then None else PayloadOf(QueryGet(fields, "game").GetOr(""), points.value)
  }

  // ----- parseKeyValuePayload -----

  /** What the `forEach` over the parts has found so far; `points` is `None` for null and for NaN. */
  datatype Found = Found(game: string, points: Option<int>)

  /**
   * One part: split at `:` and `=`, the first two pieces trimmed are the key
   * and the value; a part with an empty key or value is skipped; the keys
   * `game` and `points` are matched in any case and overwrite what was found.
   */
  function KeyValueStep(acc: Found, part: string): (r: Found)
    ensures r.game == acc.game || r.game != []
  {
    StepOnPieces(acc, Split(part, {':', '='}))
  }

  /** The step once the part is split into its pieces. */
  function StepOnPieces(acc: Found, pieces: seq<string>): (r: Found)
    requires |pieces| >= 1
    ensures r.game == acc.game || r.game != []
  {
    var key := Trim(pieces[0]);
    var value := if |pieces| > 1 then Trim(pieces[1]) else "";
    if key == [] || value == [] then acc
    else
      var withGame := if Lower(key) == "game" then acc.(game := value) else acc;
      if Lower(key) == "points" then withGame.(points := ParseInt(value)) else withGame
  }

  /** The `forEach` over the parts, from the first to the last. */
  function KeyValueFold(parts: seq<string>): Found
  {
    if parts == [] then Found("", None)
    else KeyValueStep(KeyValueFold(parts[..|parts| - 1]), parts[|parts| - 1])
  }

  /** The parts of a key-value text: the pieces between `;`, `&` and `,`. */
  function KeyValueParts(text: string): seq<string> {
    Split(text, {';', '&', ','})
  }

  /** `parseKeyValuePayload` as a function of the text. */
  function KeyValuePayload(text: string): (r: Option<Payload>)
    ensures Launchable(r)
    ensures r.Some? ==> ':' in text || '=' in text
  {
    if ':' !in text && '=' !in text then None
    else
      var found := KeyValueFold(KeyValueParts(text));
      if found.game == [] || found.points.None? then None else Some(Payload(found.game, found.points.value))
  }

  /** The two keys the key-value form knows are already lower case. */
  lemma KeysAreLowerCase()
    ensures Lower("game") == "game" && Lower("points") == "points"
  {
    var g := Lower("game");
    assert g[0] == 'g' && g[1] == 'a' && g[2] == 'm' && g[3] == 'e';
    var p := Lower("points");
    assert p[0] == 'p' && p[1] == 'o' && p[2] == 'i' && p[3] == 'n' && p[4] == 't' && p[5] == 's';
  }

  /** A part that splits into a key and a value that trimming leaves alone. */
  lemma KeyValueStepOfPieces(acc: Found, part: string, key: string, value: string)
    requires Split(part, {':', '='}) == [key, value]
    requires key != [] && value != [] && Trim(key) == key && Trim(value) == value
    ensures KeyValueStep(acc, part).game == if Lower(key) == "game" then value else acc.game
    ensures KeyValueStep(acc, part).points == if Lower(key) == "points" then ParseInt(value) else acc.points
  {
  }

  /** The fold over one more part is one more step. */
  lemma KeyValueFoldPrefix(parts: seq<string>, i: nat)
    requires i < |parts|
    ensures KeyValueFold(parts[..i + 1]) == KeyValueStep(KeyValueFold(parts[..i]), parts[i])
  {
    var longer := parts[..i + 1];
    assert longer[..|longer| - 1] == parts[..i];
    assert longer[|longer| - 1] == parts[i];
  }

  /** The fold over two parts is the step for the first, then the step for the second. */
  lemma KeyValueFoldTwo(a: string, b: string)
    ensures KeyValueFold([a, b]) == KeyValueStep(KeyValueStep(Found("", None), a), b)
  {
    assert KeyValueFold([a]) == KeyValueStep(KeyValueFold([]), a) by {
      assert [a][..0] == [];
    }
    assert KeyValueFold([a, b]) == KeyValueStep(KeyValueFold([a]), b) by {
      assert [a, b][..1] == [a];
    }
  }

  /** The fold over one more part, appended at the end, is one more step. */
  lemma KeyValueFoldSnoc(parts: seq<string>, part: string)
    ensures KeyValueFold(parts + [part]) == KeyValueStep(KeyValueFold(parts), part)
  {
    assert (parts + [part])[..|parts|] == parts;
  }

  /** The fold over a single part is one step from nothing found. */
  lemma KeyValueFoldOne(part: string)
    ensures KeyValueFold([part]) == KeyValueStep(Found("", None), part)
  {
    assert [part][..0] == [];
  }

  /** The part `game:name` (or `game=name`) sets the game. */
  lemma KeyValueStepGame(acc: Found, sep: char, name: string)
    requires sep == ':' || sep == '='
    requires name != [] && !IsSpace(name[0]) && !IsSpace(name[|name| - 1])
    requires forall i :: 0 <= i < |name| ==> name[i] !in {':', '='}
    ensures KeyValueStep(acc, "game" + [sep] + name) == acc.(game := name)
  {
    var part := "game" + [sep] + name;
    assert Split(part, {':', '='}) == ["game", name] by {
      SplitTwo("game", sep, name, {':', '='});
    }
    assert Trim("game") == "game" && Trim(name) == name by {
      TrimKeeps("game");
      TrimKeeps(name);
    }
    KeysAreLowerCase();
    KeyValueStepOfPieces(acc, part, "game", name);
  }

  /** The part `points:n` (or `points=n`) sets the points. */
  lemma KeyValueStepPoints(acc: Found, sep: char, n: int)
    requires sep == ':' || sep == '='
    ensures KeyValueStep(acc, "points" + [sep] + IntToString(n)) == acc.(points := Some(n))
  {
    PointsPartPieces(sep, n);
    IntToStringTrimmed(n);
    TrimKeeps("points");
    ParseIntRoundTrip(n);
    KeysAreLowerCase();
    KeyValueStepOfPieces(acc, "points" + [sep] + IntToString(n), "points", IntToString(n));
  }

  /** `points:n` splits into its key and its number. */
  lemma PointsPartPieces(sep: char, n: int)
    requires sep == ':' || sep == '='
    ensures Split("points" + [sep] + IntToString(n), {':', '='}) == ["points", IntToString(n)]
  {
    IntToStringChars(n);
    SplitTwo("points", sep, IntToString(n), {':', '='});
  }

  /** The payload the key-value form makes of what its fold found. */
  lemma KeyValuePayloadOf(text: string, name: string, n: int)
    requires (':' in text || '=' in text) && name != []
    requires KeyValueFold(KeyValueParts(text)) == Found(name, Some(n))
    ensures KeyValuePayload(text) == Some(Payload(name, n))
  {
  }

  /** The parts of `first;second` when neither holds a part separator. */
  lemma KeyValuePartsOfTwo(first: string, second: string)
    requires forall i :: 0 <= i < |first| ==> first[i] !in {';', '&', ','}
    requires forall i :: 0 <= i < |second| ==> second[i] !in {';', '&', ','}
    ensures KeyValueParts(first + [';'] + second) == [first, second]
  {
    SplitTwo(first, ';', second, {';', '&', ','});
  }

  /** Text that starts with `game:` holds a `:`. */
  lemma GameKeyColon(name: string, sep: char, rest: string)
    ensures ':' in ("game" + [':'] + name) + [sep] + rest
  {
    var text := ("game" + [':'] + name) + [sep] + rest;
    assert text[4] == ("game" + [':'])[4];
  }

  /** The two parts of `game:name;points:n`. */
  lemma KeyValuePartsOfRoundTrip(name: string, n: int)
    requires forall i :: 0 <= i < |name| ==> name[i] !in {';', '&', ','}
    ensures KeyValueParts(("game" + [':'] + name) + [';'] + ("points" + [':'] + IntToString(n)))
      == ["game" + [':'] + name, "points" + [':'] + IntToString(n)]
  {
    var num := IntToString(n);
    var first := "game" + [':'] + name;
    var second := "points" + [':'] + num;
    IntToStringChars(n);
    assert forall i :: 5 <= i < |first| ==> first[i] == name[i - 5];
    assert forall i :: 7 <= i < |second| ==> second[i] == num[i - 7];
    KeyValuePartsOfTwo(first, second);
  }

  /** `game:name;points:n` reads back as written, for a name that holds no separator of either level. */
  lemma KeyValueRoundTrip(name: string, n: int)
    requires name != [] && !IsSpace(name[0]) && !IsSpace(name[|name| - 1])
    requires forall i :: 0 <= i < |name| ==> name[i] !in {';', '&', ','}
    requires forall i :: 0 <= i < |name| ==> name[i] !in {':', '='}
    ensures KeyValuePayload(("game" + [':'] + name) + [';'] + ("points" + [':'] + IntToString(n)))
      == Some(Payload(name, n))
  {
    var first := "game" + [':'] + name;
    var second := "points" + [':'] + IntToString(n);
    KeyValuePartsOfRoundTrip(name, n);
    KeyValueFoldTwo(first, second);
    KeyValueStepGame(Found("", None), ':', name);
    KeyValueStepPoints(Found(name, None), ':', n);
    GameKeyColon(name, ';', second);
    KeyValuePayloadOf(first + [';'] + second, name, n);
  }

  /** A field `key=value` whose key holds no `=`. */
  lemma FieldOf(key: string, value: string)
    requires '=' !in key
    ensures FieldName(key + ['='] + value) == key && FieldValue(key + ['='] + value) == value
  {
    var field := key + ['='] + value;
    assert forall i :: 0 <= i < |key| ==> field[i] == key[i];
    IndexOfFirst(field, '=', |key|);
    assert field[..|key|] == key;
    assert field[|key| + 1..] == value;
  }

  /** The first of two fields with different names. */
  lemma QueryGetOfTwo(first: string, second: string, name: string)
    ensures FieldName(first) == name ==> QueryGet([first, second], name) == Some(FieldValue(first))
    ensures FieldName(first) != name && FieldName(second) == name ==>
      QueryGet([first, second], name) == Some(FieldValue(second))
  {
    assert [first, second][1..] == [second];
  }

  /** The payload the query form makes of the fields it found. */
  lemma QueryPayloadOf(text: string, name: string, num: string, n: int)
    requires Contains(text, "game=")
    requires QueryGet(QueryFields(ReplaceAll(text, ';', '&')), "game") == Some(name)
    requires QueryGet(QueryFields(ReplaceAll(text, ';', '&')), "points") == Some(num)
    requires name != [] && Trim(name) == name && ParseInt(num) == Some(n)
    ensures QueryPayload(text) == Some(Payload(name, n))
  {
  }

  /** Text holding neither field separator of a query, `&` nor `;`. */
  predicate FieldText(s: string) {
    forall i :: 0 <= i < |s| ==> s[i] != ';' && s[i] != '&'
  }

  /** Field text joins into field text. */
  lemma FieldTextConcat(a: string, b: string)
    requires FieldText(a) && FieldText(b)
    ensures FieldText(a + b)
  {
    assert forall i :: |a| <= i < |a + b| ==> (a + b)[i] == b[i - |a|];
  }

  /** The field prefixes and every number are field text. */
  lemma FieldTextParts(n: int)
    ensures FieldText("game=") && FieldText("points=") && FieldText(IntToString(n))
  {
    IntToStringChars(n);
  }

  /** The fields of `first` and `second` joined by `&` or `;`. */
  lemma QueryFieldsOfTwo(first: string, sep: char, second: string)
    requires sep == '&' || sep == ';'
    requires first != [] && first[0] != '?'
    requires FieldText(first) && FieldText(second)
    ensures QueryFields(ReplaceAll(first + [sep] + second, ';', '&')) == [first, second]
  {
    var joined := first + ['&'] + second;
    var r := ReplaceAll(first + [sep] + second, ';', '&');
    assert r == joined by {
      assert forall i :: 0 <= i < |first| ==> r[i] == joined[i];
      assert forall i :: |first| < i < |r| ==> r[i] == joined[i];
    }
    assert QueryFields(r) == Split(joined, {'&'}) by {
      assert joined[0] == first[0];
    }
    assert forall i :: 0 <= i < |first| ==> first[i] !in {'&'};
    assert forall i :: 0 <= i < |second| ==> second[i] !in {'&'};
    SplitTwo(first, '&', second, {'&'});
  }

  /** The two fields of `game=name&points=n`, or with `;` for `&`. */
  lemma QueryFieldsOfRoundTrip(name: string, sep: char, n: int)
    requires sep == '&' || sep == ';'
    requires FieldText(name)
    ensures QueryFields(ReplaceAll(("game" + ['='] + name) + [sep] + ("points" + ['='] + IntToString(n)), ';', '&'))
      == ["game" + ['='] + name, "points" + ['='] + IntToString(n)]
  {
    var num := IntToString(n);
    var first := "game" + ['='] + name;
    var second := "points" + ['='] + num;
    FieldTextParts(n);
    FieldTextConcat("game=", name);
    FieldTextConcat("points=", num);
    assert first == "game=" + name && second == "points=" + num;
    QueryFieldsOfTwo(first, sep, second);
  }

  /** Neither query key holds `=`. */
  lemma KeysHaveNoEquals()
    ensures '=' !in "game" && '=' !in "points"
  {
  }

  /** Text that starts with the `game` field mentions `game=`. */
  lemma GameFieldFirst(name: string, sep: char, rest: string)
    ensures Contains(("game" + ['='] + name) + [sep] + rest, "game=")
  {
    assert ("game" + ['='] + name) + [sep] + rest == "game=" + (name + [sep] + rest);
    ContainsPrefix("game=", name + [sep] + rest);
  }

  /** Both keys of `game=name&points=n` find their values. */
  lemma QueryGetOfRoundTrip(name: string, n: int)
    ensures QueryGet(["game" + ['='] + name, "points" + ['='] + IntToString(n)], "game") == Some(name)
    ensures QueryGet(["game" + ['='] + name, "points" + ['='] + IntToString(n)], "points")
      == Some(IntToString(n))
  {
    var first := "game" + ['='] + name;
    var second := "points" + ['='] + IntToString(n);
    KeysHaveNoEquals();
    FieldOf("game", name);
    FieldOf("points", IntToString(n));
    QueryGetOfTwo(first, second, "game");
    QueryGetOfTwo(first, second, "points");
  }

  /** `game=name&points=n`, or with `;` for `&`, reads back as written. */
  lemma QueryRoundTrip(name: string, sep: char, n: int)
    requires sep == '&' || sep == ';'
    requires name != [] && !IsSpace(name[0]) && !IsSpace(name[|name| - 1])
    requires FieldText(name)
    ensures QueryPayload(("game" + ['='] + name) + [sep] + ("points" + ['='] + IntToString(n)))
      == Some(Payload(name, n))
  {
    QueryFieldsOfRoundTrip(name, sep, n);
    QueryGetOfRoundTrip(name, n);
    GameFieldFirst(name, sep, "points" + ['='] + IntToString(n));
    TrimKeeps(name);
    ParseIntRoundTrip(n);
    QueryPayloadOf(("game" + ['='] + name) + [sep] + ("points" + ['='] + IntToString(n)), name, IntToString(n), n);
  }

  /** A later `game` entry overwrites an earlier one. */
  lemma KeyValueLaterGameWins(parts: seq<string>, value: string)
    requires value != [] && !IsSpace(value[0]) && !IsSpace(value[|value| - 1])
    requires forall i :: 0 <= i < |value| ==> value[i] !in {':', '='}
    ensures KeyValueFold(parts + ["game" + ['='] + value]).game == value
    ensures KeyValueFold(parts + ["game" + ['='] + value]).points == KeyValueFold(parts).points
  {
    var part := "game" + ['='] + value;
    assert KeyValueFold(parts + [part]) == KeyValueStep(KeyValueFold(parts), part) by {
      assert (parts + [part])[..|parts|] == parts;
    }
    KeyValueStepGame(KeyValueFold(parts), '=', value);
  }

  /** A part whose key or value is empty after trimming changes nothing. */
  lemma KeyValueSkipsEmpty(acc: Found, part: string)
    requires var pieces := Split(part, {':', '='});
      Trim(pieces[0]) == [] || |pieces| == 1 || Trim(pieces[1]) == []
    ensures KeyValueStep(acc, part) == acc
  {
  }

  /** `parseKeyValuePayload`: the `forEach` over the parts, updating what it has found. */
  method ParseKeyValuePayload(text: string) returns (r: Option<Payload>)
    ensures r == KeyValuePayload(text)
  {
    if ':' !in text && '=' !in text {
      return None;
    }
    var parts := KeyValueParts(text);
    var game := "";
    var points: Option<int> := None;
    var i := 0;
    while i < |parts|
      invariant 0 <= i <= |parts|
      invariant Found(game, points) == KeyValueFold(parts[..i])
    {
      KeyValueFoldPrefix(parts, i);
      var pieces := Split(parts[i], {':', '='});
      var key := Trim(pieces[0]);
      var value := if |pieces| > 1 then Trim(pieces[1]) else "";
      if key != [] && value != [] {
        if Lower(key) == "game" {
          game := value;
        }
        if Lower(key) == "points" {
          points := ParseInt(value);
        }
      }
      i := i + 1;
    }
    assert parts[..i] == parts;
    if game == [] || points.None? {
      return None;
    }
    r := Some(Payload(game, points.value));
  }

  // ----- parseSimplePayload -----

  /** `[a-z0-9_-]` under the `i` flag. */
  predicate IsNameChar(c: char) {
    ('a' <= c <= 'z') || ('A' <= c <= 'Z') || IsDigit(c) || c == '_' || c == '-'
  }

  /** Length of the run of name characters that opens `s`. */
  function NameRun(s: string): (k: nat)
    ensures k <= |s|
    ensures forall i :: 0 <= i < k ==> IsNameChar(s[i])
    ensures k < |s| ==> !IsNameChar(s[k])
  {
    if s == [] || !IsNameChar(s[0]) then 0 else 1 + NameRun(s[1..])
  }

  /**
   * `parseSimplePayload`: at the very start a name of at least three name
   * characters, optional white space, `:` or `|`, optional white space and an
   * optionally negative run of digits; whatever follows is ignored.
   */
  function SimplePayload(text: string): (r: Option<Payload>)
    ensures Launchable(r)
    ensures r.Some? ==> 3 <= |r.value.game| <= |text| && r.value.game == text[..|r.value.game|]
    ensures r.Some? ==> forall i :: 0 <= i < |r.value.game| ==> IsNameChar(r.value.game[i])
  {
    var k := NameRun(text);
    if k < 3 then None
    else
      var afterName := TrimStart(text[k..]);
      if afterName == [] || (afterName[0] != ':' && afterName[0] != '|') then None
      else
        match SignedNumber(TrimStart(afterName[1..]))
        case None => None
        case Some(v) => Some(Payload(text[..k], v))
  }

  /** The name run of a name followed by a non-name character is the name. */
  lemma {:induction false} NameRunOfPrefix(name: string, rest: string)
    requires forall i :: 0 <= i < |name| ==> IsNameChar(name[i])
    requires rest == [] || !IsNameChar(rest[0])
    ensures NameRun(name + rest) == |name|
  {
    if name == [] {
      assert name + rest == rest;
    } else {
      assert (name + rest)[1..] == name[1..] + rest;
      NameRunOfPrefix(name[1..], rest);
    }
  }

  /** The payload of text whose name run, separator and number are known. */
  lemma SimplePayloadOf(text: string, k: nat, v: int)
    requires 3 <= k <= |text| && NameRun(text) == k
    requires TrimStart(text[k..]) != [] && (TrimStart(text[k..])[0] == ':' || TrimStart(text[k..])[0] == '|')
    requires SignedNumber(TrimStart(TrimStart(text[k..])[1..])) == Some(v)
    ensures SimplePayload(text) == Some(Payload(text[..k], v))
  {
  }

  /** After the name: the separator and the number, with nothing to trim. */
  lemma SimpleAfterName(sep: char, n: int, rest: string)
    requires sep == ':' || sep == '|'
    requires rest == [] || !IsDigit(rest[0])
    ensures TrimStart([sep] + (IntToString(n) + rest)) == [sep] + (IntToString(n) + rest)
    ensures SignedNumber(TrimStart(([sep] + (IntToString(n) + rest))[1..])) == Some(n)
  {
    var number := IntToString(n) + rest;
    TrimStartKeeps([sep] + number);
    assert ([sep] + number)[1..] == number;
    TrimStartKeeps(number);
    SignedNumberOfIntToString(n, rest);
  }

  /** A name followed by text that opens with a non-name character: the name run is the name. */
  lemma NameThenTail(name: string, tail: string)
    requires forall i :: 0 <= i < |name| ==> IsNameChar(name[i])
    requires tail != [] && !IsNameChar(tail[0])
    ensures NameRun(name + tail) == |name|
    ensures (name + tail)[|name|..] == tail && (name + tail)[..|name|] == name
  {
    NameRunOfPrefix(name, tail);
  }

  /** `name:points` and `name|points` read back as written. */
  lemma SimpleRoundTrip(name: string, sep: char, n: int, rest: string)
    requires |name| >= 3 && forall i :: 0 <= i < |name| ==> IsNameChar(name[i])
    requires sep == ':' || sep == '|'
    requires rest == [] || !IsDigit(rest[0])
    ensures SimplePayload(name + ([sep] + (IntToString(n) + rest))) == Some(Payload(name, n))
  {
    var tail := [sep] + (IntToString(n) + rest);
    NameThenTail(name, tail);
    SimpleAfterName(sep, n, rest);
    SimplePayloadOf(name + tail, |name|, n);
  }

  // ----- parseGamePayload -----

  /**
   * `parseGamePayload`: blank text is no game; otherwise the trimmed text is
   * tried as JSON, as a query, as key-value pairs and in the simple form, and
   * the first that reads wins.
   */
  function GamePayload(raw: string, decoded: JsonDecoded): (r: Option<Payload>)
    ensures Launchable(r)
    ensures IsBlank(raw) ==> r.None?
    ensures var text := Trim(raw);
      text != [] && JsonPayload(text, decoded).Some? ==> r == JsonPayload(text, decoded)
    ensures var text := Trim(raw);
      text != [] && JsonPayload(text, decoded).None? && QueryPayload(text).Some? ==> r == QueryPayload(text)
    ensures var text := Trim(raw);
      text != [] && JsonPayload(text, decoded).None? && QueryPayload(text).None? && KeyValuePayload(text).Some?
      ==> r == KeyValuePayload(text)
    ensures var text := Trim(raw);
      text != [] && JsonPayload(text, decoded).None? && QueryPayload(text).None? && KeyValuePayload(text).None?
      ==> r == SimplePayload(text)
  {
    var text := Trim(raw);
    if text == [] then None
    else if JsonPayload(text, decoded).Some? then JsonPayload(text, decoded)
    else if QueryPayload(text).Some? then QueryPayload(text)
    else if KeyValuePayload(text).Some? then KeyValuePayload(text)
    else SimplePayload(text)
  }

  /** `parseGamePayload`, calling the key-value parser. */
  method ParseGamePayload(raw: string, decoded: JsonDecoded) returns (r: Option<Payload>)
    ensures r == GamePayload(raw, decoded)
  {
    var text := Trim(raw);
    if text == [] {
      return None;
    }
    r := JsonPayload(text, decoded);
    if r.Some? {
      return;
    }
    r := QueryPayload(text);
    if r.Some? {
      return;
    }
    r := ParseKeyValuePayload(text);
    if r.Some? {
      return;
    }
    r := SimplePayload(text);
  }

  /** Text that has no `=` names neither a `game=` nor a `points=` field. */
  lemma NoQueryWithoutEquals(text: string)
    requires '=' !in text
    ensures QueryPayload(text).None?
  {
    if Contains(text, "game=") {
      ContainsHasChars(text, "game=", 4);
    }
    if Contains(text, "points=") {
      ContainsHasChars(text, "points=", 6);
    }
  }

  /** Text of name characters and bars has nothing to trim. */
  lemma PlainTextTrimmed(text: string)
    requires text != [] && forall i :: 0 <= i < |text| ==> IsNameChar(text[i]) || text[i] == '|'
    ensures Trim(text) == text
  {
    assert !IsSpace(text[0]) && !IsSpace(text[|text| - 1]);
    TrimKeeps(text);
  }

  /** Text of name characters and bars holds no brace, no `:` and no `=`. */
  lemma PlainTextHoldsNoMarks(text: string)
    requires text != [] && forall i :: 0 <= i < |text| ==> IsNameChar(text[i]) || text[i] == '|'
    ensures text[0] != '{' && ':' !in text && '=' !in text
  {
  }

  /**
   * Text made of name characters and bars holds nothing the first three
   * forms look for, and nothing to trim: it is read in the simple form or not
   * at all.
   */
  lemma PlainTextIsSimple(text: string, decoded: JsonDecoded)
    requires text != [] && forall i :: 0 <= i < |text| ==> IsNameChar(text[i]) || text[i] == '|'
    ensures GamePayload(text, decoded) == SimplePayload(text)
  {
    PlainTextTrimmed(text);
    PlainTextHoldsNoMarks(text);
    NoQueryWithoutEquals(text);
  }

  /** A plain number is no game launch in any of the four forms. */
  lemma NumberIsNoGame(n: int, decoded: JsonDecoded)
    ensures GamePayload(IntToString(n), decoded).None?
  {
    var s := IntToString(n);
    assert forall i :: 1 <= i < |s| ==> s[i] == s[1..][i - 1];
    assert forall i :: 0 <= i < |s| ==> IsNameChar(s[i]);
    PlainTextIsSimple(s, decoded);
    NameRunOfPrefix(s, []);
    assert s + [] == s;
  }

  /** Every character of `name|points` is a name character or the bar. */
  lemma PipeTextChars(name: string, n: int)
    requires forall i :: 0 <= i < |name| ==> IsNameChar(name[i])
    ensures var s := name + (['|'] + IntToString(n));
      forall i :: 0 <= i < |s| ==> IsNameChar(s[i]) || s[i] == '|'
  {
    var digits := IntToString(n);
    var s := name + (['|'] + digits);
    forall i | 0 <= i < |s| ensures IsNameChar(s[i]) || s[i] == '|' {
      if i > |name| + 1 {
        assert s[i] == digits[1..][i - |name| - 2];
      } else if i == |name| + 1 {
        assert s[i] == digits[0];
      }
    }
  }

  /** `name|points` with a name that starts no other form is read as the simple form. */
  lemma PipeFormLaunches(name: string, n: int, decoded: JsonDecoded)
    requires |name| >= 3 && forall i :: 0 <= i < |name| ==> IsNameChar(name[i])
    ensures GamePayload(name + (['|'] + IntToString(n)), decoded) == Some(Payload(name, n))
  {
    var digits := IntToString(n);
    SimpleRoundTrip(name, '|', n, []);
    assert digits + [] == digits;
    PipeTextChars(name, n);
    PlainTextIsSimple(name + (['|'] + digits), decoded);
  }

  /** No character of `s` is in `seps`. */
  predicate FreeOf(s: string, seps: set<char>) {
    forall i :: 0 <= i < |s| ==> s[i] !in seps
  }

  /** Two texts free of the separators, joined by a character that is not one, stay free of them. */
  lemma FreeOfJoin(x: string, c: char, y: string, seps: set<char>)
    requires FreeOf(x, seps) && FreeOf(y, seps) && c !in seps
    ensures FreeOf(x + [c] + y, seps)
  {
    var s := x + [c] + y;
    forall i | 0 <= i < |s| ensures s[i] !in seps {
      if i < |x| {
        assert s[i] == x[i];
      } else if i > |x| {
        assert s[i] == y[i - |x| - 1];
      }
    }
  }

  /** Three separator-free fields joined by `&` split back into those three. */
  lemma ThreeFields(f1: string, f2: string, f3: string, seps: set<char>)
    requires '&' in seps && FreeOf(f1, seps) && FreeOf(f2, seps) && FreeOf(f3, seps)
    ensures Split(f1 + ['&'] + (f2 + ['&'] + f3), seps) == [f1, f2, f3]
  {
    SplitTwo(f2, '&', f3, seps);
    SplitAt(f1, '&', f2 + ['&'] + f3, seps);
  }

  /** A game name that no separator of the query or key-value forms cuts, with nothing to trim. */
  predicate PlainName(a: string) {
    && a != [] && !IsSpace(a[0]) && !IsSpace(a[|a| - 1])
    && FreeOf(a, {';', '&', ',', ':', '='})
  }

  /** The field `game=a`. */
  function GameField(a: string): string {
    "game" + ['='] + a
  }

  /** The field `points=n`. */
  function PointsField(n: int): string {
    "points" + ['='] + IntToString(n)
  }

  /** `game=a&game=b&points=n`: two `game` fields, then the points. */
  function TwoGamesText(a: string, b: string, n: int): string {
    GameField(a) + ['&'] + (GameField(b) + ['&'] + PointsField(n))
  }

  /** The fields of the text are free of every part separator but `&`, and the text holds no `;`. */
  lemma TwoGamesFields(a: string, b: string, n: int)
    requires PlainName(a) && PlainName(b)
    ensures FreeOf(GameField(a), {';', '&', ','}) && FreeOf(GameField(b), {';', '&', ','})
    ensures FreeOf(PointsField(n), {';', '&', ','})
    ensures FreeOf(TwoGamesText(a, b, n), {';'})
  {
    var seps := {';', '&', ','};
    assert FreeOf(a, seps) && FreeOf(b, seps);
    FreeOfJoin("game", '=', a, seps);
    FreeOfJoin("game", '=', b, seps);
    IntToStringChars(n);
    FreeOfJoin("points", '=', IntToString(n), seps);
    assert FreeOf(GameField(a), {';'}) && FreeOf(GameField(b), {';'}) && FreeOf(PointsField(n), {';'});
    FreeOfJoin(GameField(b), '&', PointsField(n), {';'});
    FreeOfJoin(GameField(a), '&', GameField(b) + ['&'] + PointsField(n), {';'});
  }

  /** The query form reads the first `game` of `game=a&game=b&points=n`. */
  lemma QueryReadsFirstGame(a: string, b: string, n: int)
    requires PlainName(a) && PlainName(b)
    ensures QueryPayload(TwoGamesText(a, b, n)) == Some(Payload(a, n))
  {
    var text := TwoGamesText(a, b, n);
    var f1, f2, f3 := GameField(a), GameField(b), PointsField(n);
    TwoGamesFields(a, b, n);
    assert ReplaceAll(text, ';', '&') == text;
    assert FreeOf(f1, {'&'}) && FreeOf(f2, {'&'}) && FreeOf(f3, {'&'});
    ThreeFields(f1, f2, f3, {'&'});
    assert QueryFields(text) == [f1, f2, f3];
    QueryGetsOfThree(a, b, n);
    GameFieldFirst(a, '&', f2 + ['&'] + f3);
    TrimKeeps(a);
    ParseIntRoundTrip(n);
    QueryPayloadOf(text, a, IntToString(n), n);
  }

  /** `get` on the fields `game=a`, `game=b`, `points=n`. */
  lemma QueryGetsOfThree(a: string, b: string, n: int)
    ensures QueryGet([GameField(a), GameField(b), PointsField(n)], "game") == Some(a)
    ensures QueryGet([GameField(a), GameField(b), PointsField(n)], "points") == Some(IntToString(n))
  {
    var f1, f2, f3 := GameField(a), GameField(b), PointsField(n);
    KeysHaveNoEquals();
    FieldOf("game", a);
    FieldOf("game", b);
    FieldOf("points", IntToString(n));
    assert [f1, f2, f3][1..] == [f2, f3];
    QueryGetOfTwo(f2, f3, "points");
  }

  /** The `forEach` over `game=a`, `game=b`, `points=n` keeps the later game and the points. */
  lemma TwoGamesFold(a: string, b: string, n: int)
    requires PlainName(a) && PlainName(b)
    ensures KeyValueFold([GameField(a)] + [GameField(b)] + [PointsField(n)]) == Found(b, Some(n))
  {
    var f1, f2, f3 := GameField(a), GameField(b), PointsField(n);
    KeyValueFoldOne(f1);
    KeyValueFoldSnoc([f1], f2);
    KeyValueFoldSnoc([f1] + [f2], f3);
    assert FreeOf(a, {':', '='}) && FreeOf(b, {':', '='});
    KeyValueStepGame(Found("", None), '=', a);
    KeyValueStepGame(Found(a, None), '=', b);
    KeyValueStepPoints(Found(b, None), '=', n);
  }

  /** The key-value parts of `game=a&game=b&points=n` are its three fields. */
  lemma TwoGamesParts(a: string, b: string, n: int)
    requires PlainName(a) && PlainName(b)
    ensures KeyValueParts(TwoGamesText(a, b, n)) == [GameField(a)] + [GameField(b)] + [PointsField(n)]
    ensures '=' in TwoGamesText(a, b, n)
  {
    TwoGamesFields(a, b, n);
    ThreeFields(GameField(a), GameField(b), PointsField(n), {';', '&', ','});
    assert [GameField(a), GameField(b), PointsField(n)] == [GameField(a)] + [GameField(b)] + [PointsField(n)];
    assert TwoGamesText(a, b, n)[4] == '=';
  }

  /** The key-value form lets the later `game` of `game=a&game=b&points=n` win. */
  lemma KeyValueReadsLastGame(a: string, b: string, n: int)
    requires PlainName(a) && PlainName(b)
    ensures KeyValuePayload(TwoGamesText(a, b, n)) == Some(Payload(b, n))
  {
    TwoGamesParts(a, b, n);
    TwoGamesFold(a, b, n);
    KeyValuePayloadOf(TwoGamesText(a, b, n), b, n);
  }

  /** The text ends with the number, so there is nothing to trim. */
  lemma TwoGamesTrimmed(a: string, b: string, n: int)
    ensures Trim(TwoGamesText(a, b, n)) == TwoGamesText(a, b, n)
  {
    var text := TwoGamesText(a, b, n);
    var num := IntToString(n);
    IntToStringTrimmed(n);
    assert text[|text| - 1] == num[|num| - 1];
    TrimKeeps(text);
  }

  /**
   * The order of the forms decides: `game=a&game=b&points=n` is a query, whose
   * `get` takes the first `game`, so `a` is launched, while the key-value
   * form alone would let the later `game` win and read `b`.
   */
  lemma QueryComesBeforeKeyValue(a: string, b: string, n: int, decoded: JsonDecoded)
    requires PlainName(a) && PlainName(b)
    ensures GamePayload(TwoGamesText(a, b, n), decoded) == Some(Payload(a, n))
    ensures KeyValuePayload(TwoGamesText(a, b, n)) == Some(Payload(b, n))
  {
    var text := TwoGamesText(a, b, n);
    TwoGamesTrimmed(a, b, n);
    JsonPayloadNeedsObject(text, decoded);
    QueryReadsFirstGame(a, b, n);
    KeyValueReadsLastGame(a, b, n);
  }

  // ----- handleScanResult -----

  /** What a scanned text leads to. */
  datatype Action = LaunchGame(payload: Payload) | BookPoints(points: int) | ShowText

  /** `handleScanResult`: a game payload comes first; only without one does a number book points. */
  function ScanAction(data: string, decoded: JsonDecoded): (a: Action)
    ensures a.LaunchGame? <==> GamePayload(data, decoded).Some?
    ensures a.BookPoints? <==> GamePayload(data, decoded).None? && NumericValue(data).Some?
    ensures a.LaunchGame? ==> a.payload.game != [] && Some(a.payload) == GamePayload(data, decoded)
    ensures a.BookPoints? ==> Some(a.points) == NumericValue(data)
  {
    match GamePayload(data, decoded)
    case Some(p) => LaunchGame(p)
    case None =>
      match NumericValue(data)
      case Some(n) => BookPoints(n)
      case None => ShowText
  }

  /**
   * A QR code holding just a number, negative or not, books exactly that
   * number with the scan reason; inside a double-points window a
   * non-negative one counts twice.
   */
  lemma NumberScanBooksPoints(n: int, decoded: JsonDecoded, s: Points.LedgerState, now: int, draw: Points.TxDraw)
    ensures ScanAction(IntToString(n), decoded) == BookPoints(n)
    ensures n >= 0 && Points.IsDoublePointsActive(now, s.doubleUntil) ==>
      Points.Earned(s, n, "", now, draw).balance == s.balance + 2 * n
  {
    NumberIsNoGame(n, decoded);
    NumericValueOfIntToString(n, []);
    assert IntToString(n) + [] == IntToString(n);
  }

  /** How a scan ended, as the status line reports it. */
  datatype Outcome = GameLaunched | GameNotSupported | PointsBooked | NoNumber

  /**
   * `handleScanResult`: launches the game named by a payload, or books a
   * number read from the text, or only shows the text.
   */
  method HandleScanResult(data: string, decoded: JsonDecoded, game: Games.SnakeGame, ledger: Points.Ledger,
                          now: int, draw: Points.TxDraw, foodDraws: seq<Games.Cell>) returns (outcome: Outcome)
    requires game.Valid() && ledger.Valid() && |foodDraws| > 0 && Games.AllInGrid(foodDraws)
    modifies game, ledger
    ensures game.Valid() && ledger.Valid()
    ensures match ScanAction(data, decoded)
      case LaunchGame(p) =>
        && (game.State(), outcome == GameLaunched) == Games.Launched(old(game.State()), p.game, p.points, foodDraws)
        && outcome in {GameLaunched, GameNotSupported}
        && ledger.State() == old(ledger.State())
      case BookPoints(n) =>
        && outcome == PointsBooked
        && game.State() == old(game.State())
        && ledger.State() == Points.Earned(old(ledger.State()), n, "", now, draw)
      case ShowText =>
        && outcome == NoNumber
        && game.State() == old(game.State()) && ledger.State() == old(ledger.State())
  {
    var payload := ParseGamePayload(data, decoded);
    if payload.Some? {
      var launched := game.Launch(payload.value.game, payload.value.points, foodDraws);
      outcome := if launched then GameLaunched else GameNotSupported;
      return;
    }
    var number := NumericValue(data);
    if number.Some? {
      ledger.AddPoints(number.value, "", now, draw);
      return PointsBooked;
    }
    outcome := NoNumber;
  }
}
