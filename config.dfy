/** The pool's configuration and the line-by-line loader that fills it from
    `mysql.ini`: every line is split at its first `=`, the value runs up to
    the next newline, and a fixed set of keys each overwrite one field. */
module PoolConfig {
  import opened Wrappers

  /** The settings the loader writes; the pool reads them once constructed. */
  datatype Config = Config(
    ip: string,
    port: int,
    username: string,
    password: string,
    dbname: string,
    initSize: int,
    maxSize: int,
    maxIdleTime: int,
    connectionTimeout: int)

  /** The fields before any line is read: the pool is a static object, so
      its integers start at zero and its strings empty. */
  const Default := Config("", 0, "", "", "", 0, 0, 0, 0)

  /** The keys the loader recognises, as they are spelled in the file. */
  const Keys: set<string> :=
    {"ip", "port", "username", "password", "dbname",
     "initSize", "maxSize", "maxIdleTime", "connectionTimeOut"}

  /** The keys whose value is kept as text; every other key goes through atoi. */
  const TextKeys: set<string> := {"ip", "username", "password", "dbname"}

  /** One setting's value, whichever field it lives in. */
  datatype Setting = Text(text: string) | Number(number: int)

  // ---------------------------------------------------------------------
  // Searching a line
  // ---------------------------------------------------------------------

  /** `s.find(ch, from)`: the first position at or after `from` holding
      `ch`, or None where the source gets `npos`. */
  function Find(s: string, ch: char, from: nat): (r: Option<nat>)
    ensures r.Some? ==> from <= r.value < |s| && s[r.value] == ch
    ensures r.Some? ==> forall i :: from <= i < r.value ==> s[i] != ch
    ensures r.None? <==> forall i :: from <= i < |s| ==> s[i] != ch
    decreases |s| - from
  {
    if from >= |s| then None
    else if s[from] == ch then Some(from)
    else Find(s, ch, from + 1)
  }

  /** Splits a line read from the file into its key and value, or None for
      a line without `=`, which the loader skips. The key is everything
      before the first `=`; the value everything after it up to, not
      including, the next newline (or to the end when there is none, where
      the source's `substr` gets a length past the end of the string). */
  function ParseLine(line: string): (r: Option<(string, string)>)
    ensures r.None? <==> '=' !in line
    ensures r.Some? ==>
      var (key, value) := r.value;
      '=' !in key && '\n' !in value &&
      |key| + 1 + |value| <= |line| &&
      line == key + "=" + value + line[|key| + 1 + |value|..] &&
      (|key| + 1 + |value| == |line| || line[|key| + 1 + |value|] == '\n')
  {
    match Find(line, '=', 0)
    case None => None
    case Some(idx) =>
      var key := line[..idx];
      var value := match Find(line, '\n', idx)
                   case None => line[idx + 1..]
                   case Some(endIdx) => line[idx + 1..endIdx];
      assert line == key + "=" + value + line[|key| + 1 + |value|..];
      Some((key, value))
  }

  /** A position is what `Find` answers as soon as it holds the character
      and nothing between the start of the search and it does. */
  lemma FindFirst(s: string, ch: char, from: nat, p: nat)
    requires from <= p < |s| && s[p] == ch
    requires forall i :: from <= i < p ==> s[i] != ch
    ensures Find(s, ch, from) == Some(p)
  {
  }

  /** The split is the only one a line admits: any key without `=`, followed
      by `=`, by a value without newline and then by nothing or a newline,
      parses back to exactly that key and value. */
  lemma ParseLineInverts(key: string, value: string, rest: string)
    requires '=' !in key && '\n' !in value
    requires rest == [] || rest[0] == '\n'
    ensures ParseLine(key + "=" + value + rest) == Some((key, value))
  {
    var line := key + "=" + value + rest;
    var idx := |key|;
    var end := |key| + 1 + |value|;
    assert forall i :: 0 <= i < idx ==> line[i] == key[i];
    FindFirst(line, '=', 0, idx);
    assert forall i :: idx < i < end ==> line[i] == value[i - idx - 1];
    if rest == [] {
      assert line[idx + 1..] == value;
    } else {
      assert line[end] == '\n';
      FindFirst(line, '\n', idx, end);
      assert line[idx + 1..end] == value;
    }
    assert line[..idx] == key;
  }

  // ---------------------------------------------------------------------
  // atoi
  // ---------------------------------------------------------------------

  /** The characters C's `isspace` accepts in the "C" locale. */
  predicate IsSpace(c: char) {
    c == ' ' || c == '\t' || c == '\n' || c == '\r' || c == '\U{B}' || c == '\U{C}'
  }

  predicate IsDigit(c: char) {
    '0' <= c <= '9'
  }

  /** How many characters at the start of `s` are white space. */
  function SpaceCount(s: string): (n: nat)
    ensures n <= |s|
    ensures forall i :: 0 <= i < n ==> IsSpace(s[i])
    ensures n < |s| ==> !IsSpace(s[n])
  {
    if s == [] || !IsSpace(s[0]) then 0 else 1 + SpaceCount(s[1..])
  }

  /** How many characters at the start of `s` are decimal digits. */
  function DigitCount(s: string): (n: nat)
    ensures n <= |s|
    ensures forall i :: 0 <= i < n ==> IsDigit(s[i])
    ensures n < |s| ==> !IsDigit(s[n])
  {
    if s == [] || !IsDigit(s[0]) then 0 else 1 + DigitCount(s[1..])
  }

  /** The number a string of decimal digits denotes, most significant first. */
  function DigitsValue(d: string): nat
    requires forall i :: 0 <= i < |d| ==> IsDigit(d[i])
  {
    if d == [] then 0
    else
      var last := d[|d| - 1];
      assert IsDigit(last);
      10 * DigitsValue(d[..|d| - 1]) + (last as int - '0' as int)
  }

  /** The value of the digits at the start of `s`, 0 when there are none. */
  function LeadingNumber(s: string): nat {
    DigitsValue(s[..DigitCount(s)])
  }

  /** C's `atoi`: skip white space, take an optional sign, then as many
      digits as follow; anything that does not start a number gives 0. */
  function Atoi(s: string): int {
    var t := s[SpaceCount(s)..];
    if t != [] && t[0] == '-' then -(LeadingNumber(t[1..]) as int)
    else if t != [] && t[0] == '+' then LeadingNumber(t[1..])
    else LeadingNumber(t)
  }

  /** The decimal spelling of a natural number, the partner `Atoi` reads back. */
  function Decimal(n: nat): (s: string)
    ensures s != []
    ensures forall i :: 0 <= i < |s| ==> IsDigit(s[i])
  {
    if n < 10 then [('0' as int + n) as char]
    else Decimal(n / 10) + [('0' as int + n % 10) as char]
  }

  lemma {:induction false} DigitsValueOfDecimal(n: nat)
    ensures DigitsValue(Decimal(n)) == n
  {
    if n >= 10 {
      var d := Decimal(n);
      assert d[..|d| - 1] == Decimal(n / 10);
      DigitsValueOfDecimal(n / 10);
    }
  }

  /** The digits of `Decimal(n)` stop where anything but a digit follows. */
  lemma LeadingNumberOfDecimal(n: nat, tail: string)
    requires tail == [] || !IsDigit(tail[0])
    ensures LeadingNumber(Decimal(n) + tail) == n
  {
    var s := Decimal(n) + tail;
    var d := Decimal(n);
    assert forall i :: 0 <= i < |d| ==> s[i] == d[i];
    assert |d| < |s| ==> s[|d|] == tail[0];
    assert s[..DigitCount(s)] == d;
    DigitsValueOfDecimal(n);
  }

  /** `atoi` reads back every integer written in decimal, with a leading
      minus sign for a negative one, whatever non-digit text follows. */
  lemma AtoiReadsDecimal(x: int, tail: string)
    requires tail == [] || !IsDigit(tail[0])
    ensures x >= 0 ==> Atoi(Decimal(x) + tail) == x
    ensures x < 0 ==> Atoi("-" + Decimal(-x) + tail) == x
  {
    if x >= 0 {
      var s := Decimal(x) + tail;
      assert !IsSpace(s[0]) && s[0] != '-' && s[0] != '+';
      assert SpaceCount(s) == 0;
      LeadingNumberOfDecimal(x, tail);
    } else {
      var s := "-" + Decimal(-x) + tail;
      assert SpaceCount(s) == 0;
      assert s[1..] == Decimal(-x) + tail;
      LeadingNumberOfDecimal(-x, tail);
    }
  }

  /** White space in front of a number does not change what `atoi` reads. */
  lemma AtoiSkipsLeadingSpace(c: char, s: string)
    requires IsSpace(c)
    ensures Atoi([c] + s) == Atoi(s)
  {
    assert ([c] + s)[1..] == s;
    assert SpaceCount([c] + s) == 1 + SpaceCount(s);
    assert ([c] + s)[SpaceCount([c] + s)..] == s[SpaceCount(s)..];
  }

  // ---------------------------------------------------------------------
  // Dispatching a key
  // ---------------------------------------------------------------------

  /** The setting a recognised key reads from a value: text as it is,
      numbers through `atoi`. */
  function Interpret(key: string, value: string): Setting {
    if key in TextKeys then Text(value) else Number(Atoi(value))
  }

  /** The field a recognised key writes, read back from a configuration. */
  function Get(c: Config, key: string): Setting
    requires key in Keys
  {
    match key
    case "ip" => Text(c.ip)
    case "port" => Number(c.port)
    case "username" => Text(c.username)
    case "password" => Text(c.password)
    case "dbname" => Text(c.dbname)
    case "initSize" => Number(c.initSize)
    case "maxSize" => Number(c.maxSize)
    case "maxIdleTime" => Number(c.maxIdleTime)
    case "connectionTimeOut" => Number(c.connectionTimeout)
  }

  /** The `if`/`else if` chain over the key: a recognised key overwrites its
      own field and no other, an unrecognised one changes nothing. */
  function Assign(c: Config, key: string, value: string): (r: Config)
    ensures key !in Keys ==> r == c
    ensures key in Keys ==> Get(r, key) == Interpret(key, value)
    ensures forall k :: k in Keys && k != key ==> Get(r, k) == Get(c, k)
  {
    if key == "ip" then c.(ip := value)
    else if key == "port" then c.(port := Atoi(value))
    else if key == "username" then c.(username := value)
    else if key == "password" then c.(password := value)
    else if key == "dbname" then c.(dbname := value)
    else if key == "initSize" then c.(initSize := Atoi(value))
    else if key == "maxSize" then c.(maxSize := Atoi(value))
    else if key == "maxIdleTime" then c.(maxIdleTime := Atoi(value))
    else if key == "connectionTimeOut" then c.(connectionTimeout := Atoi(value))
    else c
  }

  /** One pass of the loader's loop body. */
  function ApplyLine(c: Config, line: string): (r: Config)
    ensures '=' !in line ==> r == c
    ensures ParseLine(line).Some? && ParseLine(line).value.0 !in Keys ==> r == c
    ensures ParseLine(line).Some? && ParseLine(line).value.0 in Keys ==>
      var (key, value) := ParseLine(line).value;
      Get(r, key) == Interpret(key, value) &&
      forall k :: k in Keys && k != key ==> Get(r, k) == Get(c, k)
  {
    match ParseLine(line)
    case None => c
    case Some((key, value)) => Assign(c, key, value)
  }

  /** Of two lines for the same key, the later one alone decides the field. */
  lemma LaterLineOverwrites(c: Config, first: string, second: string)
    requires ParseLine(first).Some? && ParseLine(second).Some?
    requires ParseLine(first).value.0 == ParseLine(second).value.0
    ensures ApplyLine(ApplyLine(c, first), second) == ApplyLine(c, second)
  {
    var (key, earlier) := ParseLine(first).value;
    var later := ParseLine(second).value.1;
    assert ApplyLine(c, first) == Assign(c, key, earlier);
    assert ApplyLine(c, second) == Assign(c, key, later);
    assert Assign(Assign(c, key, earlier), key, later) == Assign(c, key, later);
  }

  /** The loader's whole loop over the lines of the file, in order. */
  function ApplyLines(c: Config, lines: seq<string>): Config {
    if lines == [] then c
    else ApplyLine(ApplyLines(c, lines[..|lines| - 1]), lines[|lines| - 1])
  }

  /** Whether `line` is a `key=value` line for this key. */
  predicate Names(line: string, key: string) {
    ParseLine(line).Some? && ParseLine(line).value.0 == key
  }

  /** No line of `lines` from position `k` on names `key`. */
  predicate NoneFrom(lines: seq<string>, key: string, k: nat) {
    forall j :: k <= j < |lines| ==> !Names(lines[j], key)
  }

  /** A last line that does not name `key` leaves every "no line from here
      on names it" fact about the lines before it true. */
  lemma NoneFromExtends(lines: seq<string>, key: string)
    requires lines != [] && !Names(lines[|lines| - 1], key)
    ensures forall k: nat :: k < |lines| && NoneFrom(lines[..|lines| - 1], key, k) ==> NoneFrom(lines, key, k)
    ensures forall i :: 0 <= i < |lines| - 1 ==> lines[..|lines| - 1][i] == lines[i]
  {
  }

  /** The value of the last line in `lines` whose key is `key`: some line
      gives exactly that value and no later line names the key; None when
      no line names it at all. */
  function LastValue(lines: seq<string>, key: string): (r: Option<string>)
    ensures r.None? <==> NoneFrom(lines, key, 0)
    ensures r.Some? ==>
      exists i :: 0 <= i < |lines| && ParseLine(lines[i]) == Some((key, r.value)) && NoneFrom(lines, key, i + 1)
  {
    if lines == [] then None
    else
      var front := lines[..|lines| - 1];
      var parsed := ParseLine(lines[|lines| - 1]);
      if parsed.Some? && parsed.value.0 == key then
        assert NoneFrom(lines, key, |lines|);
        Some(parsed.value.1)
      else
        var r := LastValue(front, key);
        NoneFromExtends(lines, key);
        r
  }

  /** Each recognised field ends up as the last line for its key wrote it,
      or as it started when no line names the key. */
  lemma {:induction false} LastLineWins(c: Config, lines: seq<string>, key: string)
    requires key in Keys
    ensures LastValue(lines, key).None? ==> Get(ApplyLines(c, lines), key) == Get(c, key)
    ensures LastValue(lines, key).Some? ==>
      Get(ApplyLines(c, lines), key) == Interpret(key, LastValue(lines, key).value)
  {
    if lines != [] {
      LastLineWins(c, lines[..|lines| - 1], key);
    }
  }

  /** `loadConfigFile`: None stands for a missing `mysql.ini`, which is
      reported as failure with every field left as it was; otherwise each
      line `fgets` returns updates the configuration in turn. */
  method LoadConfigFile(file: Option<seq<string>>, init: Config) returns (loaded: bool, c: Config)
    ensures loaded <==> file.Some?
    ensures c == if file.Some? then ApplyLines(init, file.value) else init
  {
    if file.None? {
      return false, init;
    }
    var lines := file.value;
    c := init;
    var i := 0;
    while i < |lines|
      invariant 0 <= i <= |lines|
      invariant c == ApplyLines(init, lines[..i])
    {
      var parsed := ParseLine(lines[i]);
      if parsed.Some? {
        var (key, value) := parsed.value;
        c := Assign(c, key, value);
      }
      assert lines[..i + 1][..i] == lines[..i];
      i := i + 1;
    }
    assert lines[..i] == lines;
    loaded := true;
  }
}
