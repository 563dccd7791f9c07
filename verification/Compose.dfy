/**
 * The account Compose environment: a two-line file that is written, parsed and
 * rewritten, and must never lose the image already applied.
 */
module Compose {
  import opened Wrappers
  import opened Strings

  datatype ComposeError = EmptyOrInvalid(key: string) | InvalidLine(number: nat) | DuplicateKey(key: string) | InvalidImage

  const IMAGE := "CLIPROXY_IMAGE"
  const LISTEN := "BUSINESS_CPA_LISTEN_ADDRESS"
  const ORIGIN := "# Generated from state/"
  const DATABASE := "control-plane.sqlite3; "
  const COMMENT := ORIGIN + DATABASE + "do not edit."
  const HEADER := COMMENT + "\n"

  // ------------------------------------------------------------------ writing

  predicate ContainsAny(s: string, chars: string) {
    exists c :: c in s && c in chars
  }

  predicate Writable(value: string) {
    Trim(value) != "" && !ContainsAny(Trim(value), "\r\n\0")
  }

  method Write(image: string, listenAddress: string) returns (r: Result<string, ComposeError>)
    ensures r == Written(image, listenAddress)
  {
    hide HEADER, IMAGE, LISTEN, Trim, ContainsAny;
    var items := [(IMAGE, image), (LISTEN, listenAddress)];
    r := Ok(HEADER);
    var i := 0;
    while i < |items| && r.Ok?
      invariant 0 <= i <= |items|
      invariant r.Ok? ==> r == WrittenUpTo(items, i)
      invariant r.Err? ==> r == WrittenUpTo(items, |items|)
      decreases |items| - i, r.Ok?
    {
      var value := Trim(items[i].1);
      if value == "" || ContainsAny(value, "\r\n\0") {
        r := Err(EmptyOrInvalid(items[i].0));
        ErrorStays(items, i + 1, |items|);
      } else {
        r := Ok(r.value + Entry(items[i].0, value));
        i := i + 1;
      }
    }
    WrittenUpToTwo(image, listenAddress);
  }

  function Entry(key: string, value: string): string {
    key + "=" + value + "\n"
  }

  /** What ends up in the file: both values trimmed, or the first one that may not be written. */
  function Written(image: string, listenAddress: string): Result<string, ComposeError> {
    if !Writable(image) then Err(EmptyOrInvalid(IMAGE))
    else if !Writable(listenAddress) then Err(EmptyOrInvalid(LISTEN))
    else Ok(HEADER + Entry(IMAGE, Trim(image)) + Entry(LISTEN, Trim(listenAddress)))
  }

  function WrittenUpTo(items: seq<(string, string)>, n: nat): Result<string, ComposeError>
    requires n <= |items|
  {
    if n == 0 then Ok(HEADER)
    else
      var before := WrittenUpTo(items, n - 1);
      var (key, value) := items[n - 1];
      if before.Err? then before
      else if !Writable(value) then Err(EmptyOrInvalid(key))
      else Ok(before.value + Entry(key, Trim(value)))
  }

  lemma {:induction false} ErrorStays(items: seq<(string, string)>, n: nat, m: nat)
    requires n <= m <= |items| && WrittenUpTo(items, n).Err?
    ensures WrittenUpTo(items, m) == WrittenUpTo(items, n)
  {
    if n < m {
      ErrorStays(items, n, m - 1);
    }
  }

  lemma WrittenUpToTwo(image: string, listenAddress: string)
    ensures WrittenUpTo([(IMAGE, image), (LISTEN, listenAddress)], 2) == Written(image, listenAddress)
  {
    hide HEADER, IMAGE, LISTEN, Trim, ContainsAny;
    var items := [(IMAGE, image), (LISTEN, listenAddress)];
    assert WrittenUpTo(items, 0) == Ok(HEADER);
    assert WrittenUpTo(items, 1) == if !Writable(image) then Err(EmptyOrInvalid(IMAGE)) else Ok(HEADER + Entry(IMAGE, Trim(image)));
  }

  // ------------------------------------------------------------------ parsing

  /** The line up to the first newline, and what follows it if there is one. */
  function CutLine(raw: string): (string, Option<string>)
    ensures CutLine(raw).1.Some? ==> |CutLine(raw).1.value| < |raw|
  {
    if raw == "" then ("", None)
    else if raw[0] == '\n' then ("", Some(raw[1..]))
    else
      var (line, rest) := CutLine(raw[1..]);
      ([raw[0]] + line, rest)
  }

  /** strings.Cut at the first '='. */
  function CutEquals(line: string): Option<(string, string)> {
    if line == "" then None
    else if line[0] == '=' then Some(("", line[1..]))
    else
      var rest := CutEquals(line[1..]);
      if rest.None? then None else Some(([line[0]] + rest.value.0, rest.value.1))
  }

  /** One line's effect on the entries read so far. */
  function ReadLine(entries: map<string, string>, raw: string, number: nat): Result<map<string, string>, ComposeError> {
    var line := Trim(raw);
    if line == "" || line[0] == '#' then Ok(entries)
    else
      var cut := CutEquals(line);
      if cut.None? then Err(InvalidLine(number))
      else
        var key := Trim(cut.value.0);
        if key == "" || ContainsAny(key, " \t\r\n\0") then Err(InvalidLine(number))
        else if key in entries then Err(DuplicateKey(key))
        else Ok(entries[key := Trim(cut.value.1)])
  }

  function ParseFrom(entries: map<string, string>, raw: string, number: nat): Result<map<string, string>, ComposeError>
    decreases |raw|
  {
    var (line, rest) := CutLine(raw);
    var read := ReadLine(entries, line, number);
    if read.Err? || rest.None? then read
    else ParseFrom(read.value, rest.value, number + 1)
  }

  function Parse(raw: string): Result<map<string, string>, ComposeError> {
    ParseFrom(map[], raw, 1)
  }

  /** The same, line by line into one map. */
  method ParseEnvironment(raw: string) returns (r: Result<map<string, string>, ComposeError>)
    ensures r == Parse(raw)
  {
    var entries: map<string, string> := map[];
    var left, number, more := raw, 1, true;
    r := Ok(entries);
    while more && r.Ok?
      invariant number >= 1
      invariant r.Ok? ==> r.value == entries
      invariant r.Ok? && more ==> Parse(raw) == ParseFrom(entries, left, number)
      invariant r.Err? || !more ==> Parse(raw) == r
      decreases more, |left|, r.Ok?
    {
      var (line, rest) := CutLine(left);
      r := ReadLine(entries, line, number);
      if r.Ok? {
        entries := r.value;
        more := rest.Some?;
        if rest.Some? {
          left, number := rest.value, number + 1;
        }
      }
    }
  }

  // --------------------------------------------------------------- round trip

  lemma {:induction false} CutLineOf(line: string, rest: string)
    requires '\n' !in line
    ensures CutLine(line + "\n" + rest) == (line, Some(rest))
  {
    if line == "" {
      assert line + "\n" + rest == "\n" + rest;
      assert ("\n" + rest)[1..] == rest;
    } else {
      assert (line + "\n" + rest)[1..] == line[1..] + "\n" + rest;
      CutLineOf(line[1..], rest);
      assert [line[0]] + line[1..] == line;
    }
  }

  lemma {:induction false} CutEqualsOf(key: string, value: string)
    requires '=' !in key
    ensures CutEquals(key + "=" + value) == Some((key, value))
  {
    if key == "" {
      assert key + "=" + value == "=" + value;
      assert ("=" + value)[1..] == value;
    } else {
      assert (key + "=" + value)[1..] == key[1..] + "=" + value;
      CutEqualsOf(key[1..], value);
      assert [key[0]] + key[1..] == key;
    }
  }

  predicate PlainKey(key: string) {
    key != "" && key[0] != '#' && Trimmed(key) && '=' !in key && !ContainsAny(key, " \t\r\n\0")
  }

  lemma ReadEntry(entries: map<string, string>, key: string, value: string, number: nat)
    requires PlainKey(key) && key !in entries && value != "" && Trimmed(value)
    ensures ReadLine(entries, key + "=" + value, number) == Ok(entries[key := value])
  {
    var line := key + "=" + value;
    assert line[0] == key[0] && line[|line| - 1] == value[|value| - 1];
    TrimOfTrimmed(line);
    CutEqualsOf(key, value);
    TrimOfTrimmed(key);
    TrimOfTrimmed(value);
    hide Trim, ContainsAny;
  }

  lemma ParseEntry(entries: map<string, string>, key: string, value: string, rest: string, number: nat)
    requires PlainKey(key) && key !in entries && value != "" && Trimmed(value) && '\n' !in value && '\n' !in key
    ensures ParseFrom(entries, Entry(key, value) + rest, number) == ParseFrom(entries[key := value], rest, number + 1)
  {
    var line := key + "=" + value;
    assert Entry(key, value) + rest == line + "\n" + rest;
    CutLineOf(line, rest);
    ReadEntry(entries, key, value, number);
    hide ReadLine, CutLine;
  }

  /** Upper-case letters and underscores only. */
  predicate Capitals(key: string) {
    forall i :: 0 <= i < |key| ==> 'A' <= key[i] <= 'Z' || key[i] == '_'
  }

  lemma CapitalsArePlain(key: string)
    requires key != "" && Capitals(key)
    ensures PlainKey(key) && '\n' !in key
  {
  }

  lemma PlainKeys()
    ensures PlainKey(IMAGE) && PlainKey(LISTEN) && IMAGE != LISTEN && '\n' !in IMAGE && '\n' !in LISTEN
  {
    assert Capitals(IMAGE) && Capitals(LISTEN) && IMAGE[0] == 'C' && LISTEN[0] == 'B';
    CapitalsArePlain(IMAGE);
    CapitalsArePlain(LISTEN);
    hide PlainKey;
  }

  lemma CommentLine()
    ensures COMMENT[0] == '#' && '\n' !in COMMENT && Trimmed(COMMENT)
  {
    assert ORIGIN[0] == '#' && '\n' !in ORIGIN;
    assert '\n' !in DATABASE;
    var ending := "do not edit.";
    assert '\n' !in ending && ending[|ending| - 1] == '.';
  }

  lemma ParseHeader(rest: string)
    ensures ParseFrom(map[], HEADER + rest, 1) == ParseFrom(map[], rest, 2)
  {
    CommentLine();
    hide COMMENT, CutLine, Trim;
    assert HEADER + rest == COMMENT + "\n" + rest;
    CutLineOf(COMMENT, rest);
    TrimOfTrimmed(COMMENT);
  }

  /** Parsing what was written gives exactly the trimmed image and address. */
  lemma ParseOfWritten(image: string, listenAddress: string)
    requires Written(image, listenAddress).Ok?
    ensures Parse(Written(image, listenAddress).value) == Ok(map[IMAGE := Trim(image), LISTEN := Trim(listenAddress)])
  {
    var first, second := Entry(IMAGE, Trim(image)), Entry(LISTEN, Trim(listenAddress));
    PlainKeys();
    hide Trim, CutLine, ReadLine;
    ParseHeader(first + second);
    assert HEADER + (first + second) == HEADER + first + second;
    ParseEntry(map[], IMAGE, Trim(image), second, 2);
    ParseEntry(map[IMAGE := Trim(image)], LISTEN, Trim(listenAddress), "", 3);
    assert second + "" == second;
    ParseNothing(map[IMAGE := Trim(image), LISTEN := Trim(listenAddress)]);
    assert map[IMAGE := Trim(image)][LISTEN := Trim(listenAddress)] == map[IMAGE := Trim(image), LISTEN := Trim(listenAddress)];
  }

  lemma ParseNothing(entries: map<string, string>)
    ensures ParseFrom(entries, "", 4) == Ok(entries)
  {
  }

  // --------------------------------------------------------------- projection

  function FirstNonEmpty(values: seq<string>): string {
    if values == [] then ""
    else if Trim(values[0]) != "" then Trim(values[0])
    else FirstNonEmpty(values[1..])
  }

  function ValueOf(entries: map<string, string>, key: string): string {
    if key in entries then entries[key] else ""
  }

  /** What a projection of the settings would write over the file. */
  function Projection(file: Option<string>, setting: string, listenAddress: string): Result<string, ComposeError> {
    var existing := if file.Some? then Parse(file.value) else Ok(map[]);
    if existing.Err? then Err(existing.error)
    else Written(FirstNonEmpty([ValueOf(existing.value, IMAGE), setting]), listenAddress)
  }

  /** The image the file already applies, and the address it listens on. */
  function Applied(file: Option<string>): Option<string> {
    if file.None? || Parse(file.value).Err? || Trim(ValueOf(Parse(file.value).value, IMAGE)) == "" then None
    else Some(Trim(ValueOf(Parse(file.value).value, IMAGE)))
  }

  function Address(file: Option<string>): Option<string> {
    if file.None? || Parse(file.value).Err? then None else Some(ValueOf(Parse(file.value).value, LISTEN))
  }

  /** One projection, whether or not it succeeded. */
  predicate Projected(before: Option<string>, setting: string, listenAddress: string, after: Option<string>) {
    after == before ||
    (Projection(before, setting, listenAddress).Ok? && after == Some(Projection(before, setting, listenAddress).value))
  }

  lemma WrittenApplies(image: string, listenAddress: string)
    requires Written(image, listenAddress).Ok?
    ensures Applied(Some(Written(image, listenAddress).value)) == Some(Trim(image))
    ensures Address(Some(Written(image, listenAddress).value)) == Some(Trim(listenAddress))
  {
    ParseOfWritten(image, listenAddress);
    PlainKeys();
    TrimOfTrimmed(Trim(image));
    hide Parse, PlainKey, IMAGE, LISTEN, Trim, HEADER, Entry, ContainsAny;
  }

  /** An image once applied survives a projection, whatever the settings now say. */
  lemma ProjectionKeepsImage(before: Option<string>, setting: string, listenAddress: string, after: Option<string>)
    requires Projected(before, setting, listenAddress, after) && Applied(before).Some?
    ensures Applied(after) == Applied(before)
  {
    hide Parse, IMAGE, LISTEN, Trim, Written;
    if after != before {
      var stored := ValueOf(Parse(before.value).value, IMAGE);
      assert FirstNonEmpty([stored, setting]) == Trim(stored);
      WrittenApplies(Trim(stored), listenAddress);
      TrimOfTrimmed(Trim(stored));
    }
  }

  /** Over any sequence of projections, failed ones included, the applied image never changes. */
  lemma {:induction false} AppliedImageNeverChanges(files: seq<Option<string>>, settings: seq<(string, string)>)
    requires |files| == |settings| + 1 && Applied(files[0]).Some?
    requires forall i :: 0 <= i < |settings| ==> Projected(files[i], settings[i].0, settings[i].1, files[i + 1])
    ensures forall i :: 0 <= i < |files| ==> Applied(files[i]) == Applied(files[0])
  {
    hide Applied, Projected;
    var n := |settings|;
    if n > 0 {
      AppliedImageNeverChanges(files[..n], settings[..n - 1]);
      assert Applied(files[n - 1]) == Applied(files[0]) by {
        assert files[..n][n - 1] == files[n - 1];
      }
      ProjectionKeepsImage(files[n - 1], settings[n - 1].0, settings[n - 1].1, files[n]);
      forall i | 0 <= i < |files| ensures Applied(files[i]) == Applied(files[0]) {
        if i < n {
          assert files[..n][i] == files[i];
        }
      }
    }
  }

  class Projector {
    /** compose.env, when there is one. */
    var file: Option<string>

    constructor (file: Option<string>)
      ensures this.file == file
    {
      this.file := file;
    }

    /** The rename is atomic; securing the file afterwards may still fail. */
    method WriteAccountEnvironment(image: string, listenAddress: string) returns (ok: bool)
      modifies this
      ensures ok ==> Written(image, listenAddress).Ok? && file == Some(Written(image, listenAddress).value)
      ensures file == old(file) || (Written(image, listenAddress).Ok? && file == Some(Written(image, listenAddress).value))
    {
      var content := Write(image, listenAddress);
      ok := content.Ok?;
      if ok {
        var replaced: bool := *;
        if replaced {
          file := Some(content.value);
        }
        ok := *;
        ok := ok && replaced;
      }
    }

    method ProjectConfiguration(setting: string, listenAddress: string) returns (ok: bool)
      modifies this
      ensures Projected(old(file), setting, listenAddress, file)
      ensures ok ==> Address(file) == Some(Trim(listenAddress))
      ensures ok ==> Applied(file) == if Applied(old(file)).Some? then Applied(old(file)) else Some(Trim(setting))
    {
      hide IMAGE, LISTEN, Trim, Written, Parse;
      TrimOfTrimmed("");
      var existing: Result<map<string, string>, ComposeError> := Ok(map[]);
      if file.Some? {
        existing := ParseEnvironment(file.value);
      }
      ok := existing.Ok?;
      if ok {
        var image := FirstNonEmpty([ValueOf(existing.value, IMAGE), setting]);
        ok := WriteAccountEnvironment(image, listenAddress);
        if ok {
          WrittenApplies(image, listenAddress);
          FirstOfTwo(ValueOf(existing.value, IMAGE), setting);
        }
      }
    }

    method ProjectCPAImage(reference: string, listenAddress: string) returns (ok: bool)
      modifies this
      ensures file == old(file) || Applied(file) == Some(Trim(reference))
      ensures ok ==> Applied(file) == Some(Trim(reference)) && Address(file) == Some(Trim(listenAddress))
      ensures ok ==> old(file).None? || Parse(old(file).value).Ok?
      ensures ok ==> |Trim(reference)| <= 512 && !ContainsAny(Trim(reference), "\r\n\t \0")
    {
      hide IMAGE, LISTEN, Trim, Written, Parse, ContainsAny, Applied, Address;
      var resolved := Trim(reference);
      TrimOfTrimmed(resolved);
      ok := resolved != "" && |resolved| <= 512 && !ContainsAny(resolved, "\r\n\t \0");
      if ok && file.Some? {
        var existing := ParseEnvironment(file.value);
        ok := existing.Ok?;
      }
      if ok {
        ok := WriteAccountEnvironment(resolved, listenAddress);
        if Written(resolved, listenAddress).Ok? {
          WrittenApplies(resolved, listenAddress);
        }
      }
    }
  }

  lemma FirstOfTwo(first: string, second: string)
    ensures Trim(FirstNonEmpty([first, second])) == if Trim(first) != "" then Trim(first) else Trim(second)
  {
    TrimOfTrimmed(Trim(first));
    TrimOfTrimmed(Trim(second));
    assert FirstNonEmpty([second]) == Trim(second);
    assert [first, second][1..] == [second];
    hide Trim;
  }
}
