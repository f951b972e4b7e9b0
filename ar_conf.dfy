/** The filter `read_ar_conf` applies to the lines of the AR conf file: a
    record is `<command> - <field> - <field> ...`, and only records with at
    least three fields whose command ends in '0' name an Active Response
    command. */
module ArConf {
  import opened Wrappers
  import opened Text

  /** The field separator of an AR conf record. */
  const SEPARATOR: string := " - "

  /** A record names a command only when it has at least this many fields. */
  const MIN_FIELDS: nat := 3

  /** The text before the leftmost separator of `s` (all of `s` when there is none). */
  function FirstField(s: string): string {
    var i := Find(s, SEPARATOR, 0);
    if i < 0 then s else s[..i]
  }

  /** The command one line of the AR conf file contributes, if any: the
      stripped first field of the stripped line, kept when the line has at
      least three fields and that field ends in '0'. A command ends in '0',
      has no whitespace at either end, holds no separator and starts the
      stripped line; a line with fewer than three fields contributes nothing. */
  function LineCommand(line: string): (r: Option<string>)
    ensures r.Some? ==> EndsWith(r.value, '0')
    ensures r.Some? ==> !IsSpace(r.value[0]) && !IsSpace(r.value[|r.value| - 1])
    ensures r.Some? ==> r.value <= Strip(line) && Free(r.value, SEPARATOR)
    ensures |Split(Strip(line), SEPARATOR)| < MIN_FIELDS ==> r == None
  {
    var stripped := Strip(line);
    var parts := Split(stripped, SEPARATOR);
    if |parts| >= MIN_FIELDS then
      var command := Strip(parts[0]);
      if EndsWith(command, '0') then
        StartsStripped(stripped, parts[0], command);
        Some(command)
      else None
    else None
  }

  /** Stripping a prefix of a stripped line leaves a prefix of that line. */
  lemma {:induction false} StartsStripped(stripped: string, field: string, command: string)
    requires stripped != [] ==> !IsSpace(stripped[0])
    requires field <= stripped && Free(field, SEPARATOR) && command == Strip(field)
    ensures command <= stripped && Free(command, SEPARATOR)
  {
    if field != [] {
      assert field[0] == stripped[0];
      assert TrimStart(field) == field;
    }
    assert command <= field;
    FreePrefix(field, command, SEPARATOR);
  }

  /** A line names command `c` exactly when its stripped text holds two
      separators apart from each other (so it has at least three fields), and
      `c`, the stripped text before the first separator, ends in '0'. */
  lemma LineCommandIff(line: string, c: string)
    ensures LineCommand(line) == Some(c) <==>
            (exists i, j :: TwoApart(Strip(line), SEPARATOR, i, j))
            && c == Strip(FirstField(Strip(line))) && EndsWith(c, '0')
  {
    var stripped := Strip(line);
    SplitThreeFields(stripped, SEPARATOR);
    var i0 := Find(stripped, SEPARATOR, 0);
    if i0 >= 0 {
      SplitAtFirst(stripped, SEPARATOR, i0);
    }
  }

  /** The values `extract` gives the lines, in order, leaving out the lines
      it gives nothing for. */
  function Collect(lines: seq<string>, extract: string -> Option<string>): set<string>
    decreases |lines|
  {
    if lines == [] then {}
    else
      var earlier := Collect(lines[..|lines| - 1], extract);
      match extract(lines[|lines| - 1])
      case Some(c) => earlier + {c}
      case None => earlier
  }

  /** A value is collected exactly when `extract` gives it for some line. */
  lemma {:induction false} CollectIff(lines: seq<string>, extract: string -> Option<string>, c: string)
    ensures c in Collect(lines, extract) <==> exists i :: 0 <= i < |lines| && extract(lines[i]) == Some(c)
    decreases |lines|
  {
    if lines != [] {
      var last := |lines| - 1;
      var init := lines[..last];
      CollectIff(init, extract, c);
      assert forall i :: 0 <= i < last ==> init[i] == lines[i];
    }
  }

  /** Collecting one more line adds what `extract` gives for it. */
  lemma {:induction false} CollectNext(lines: seq<string>, extract: string -> Option<string>, i: nat)
    requires i < |lines|
    ensures Collect(lines[..i + 1], extract) ==
            match extract(lines[i])
            case Some(c) => Collect(lines[..i], extract) + {c}
            case None => Collect(lines[..i], extract)
  {
    assert lines[..i + 1][..i] == lines[..i];
  }

  /** The set `read_ar_conf` builds from the lines of the AR conf file. */
  function Commands(lines: seq<string>): set<string> {
    Collect(lines, LineCommand)
  }

  /** A command is read from the AR conf file exactly when some line names it. */
  lemma CommandsIff(lines: seq<string>, c: string)
    ensures c in Commands(lines) <==> exists i :: 0 <= i < |lines| && LineCommand(lines[i]) == Some(c)
  {
    CollectIff(lines, LineCommand, c);
  }

  /** Every command read from the AR conf file ends in '0'. */
  lemma CommandsEndInZero(lines: seq<string>)
    ensures forall c :: c in Commands(lines) ==> EndsWith(c, '0')
  {
    forall c | c in Commands(lines) ensures EndsWith(c, '0') {
      CommandsIff(lines, c);
    }
  }

  /** A line `extract` gives nothing for can be left out without changing
      what is collected. */
  lemma {:induction false} CollectSkip(lines: seq<string>, extract: string -> Option<string>, i: nat)
    requires i < |lines| && extract(lines[i]) == None
    ensures Collect(lines, extract) == Collect(lines[..i] + lines[i + 1..], extract)
  {
    var rest := lines[..i] + lines[i + 1..];
    forall c ensures c in Collect(lines, extract) <==> c in Collect(rest, extract) {
      CollectIff(lines, extract, c);
      CollectIff(rest, extract, c);
      if exists j :: 0 <= j < |lines| && extract(lines[j]) == Some(c) {
        var j :| 0 <= j < |lines| && extract(lines[j]) == Some(c);
        if j < i {
          assert rest[j] == lines[j];
        } else {
          assert rest[j - 1] == lines[j];
        }
      }
      if exists j :: 0 <= j < |rest| && extract(rest[j]) == Some(c) {
        var j :| 0 <= j < |rest| && extract(rest[j]) == Some(c);
        if j < i {
          assert rest[j] == lines[j];
        } else {
          assert rest[j] == lines[j + 1];
        }
      }
    }
  }

  /** A line with fewer than three fields contributes nothing: leaving it out
      of the file reads the same commands. */
  lemma ShortLineIgnored(lines: seq<string>, i: nat)
    requires i < |lines| && |Split(Strip(lines[i]), SEPARATOR)| < MIN_FIELDS
    ensures Commands(lines) == Commands(lines[..i] + lines[i + 1..])
  {
    CollectSkip(lines, LineCommand, i);
  }

}
