/** One migration of an events journal: legacy rows rewritten to the canonical
    envelope, everything else kept byte for byte.

    A journal is its sequence of physical lines.  JSON text is a `Codec`. */
module JournalMigration {
  import opened Prelude

  /** A `Scalar` is a number, true, false or null, by the text json.dumps gives it. */
  datatype Json = Object(fields: map<string, Json>) | Array(items: seq<Json>) | Text(text: string) | Scalar(literal: string)

  /** `parse` is json.loads of the stripped line (None where it raises
      JSONDecodeError); `blank` is a line that strips to nothing. */
  datatype Codec = Codec(blank: string -> bool, parse: string -> Option<Json>, dump: Json -> string)

  predicate Contains(text: string, word: string) {
    |word| <= |text| && (text[..|word|] == word || (text != "" && Contains(text[1..], word)))
  }

  /** `_is_legacy`, on whatever json.loads returned; None where `in` raises TypeError. */
  function IsLegacy(j: Json): Option<bool> {
    match j
    case Object(f) => Some("timestamp" in f && "ts" !in f)
    case Array(items) => Some(Text("timestamp") in items && Text("ts") !in items)
    case Text(t) => Some(Contains(t, "timestamp") && !Contains(t, "ts"))
    case Scalar(_) => None
  }

  function Get(f: map<string, Json>, key: string, default: Json): Json {
    if key in f then f[key] else default
  }

  /** `_migrate_row`. */
  function MigrateRow(f: map<string, Json>): Json
    requires "timestamp" in f
  {
    Object(map["ts" := f["timestamp"],
               "type" := Get(f, "type", Text("")),
               "source" := Get(f, "source", Text("")),
               "data" := Get(f, "data", Object(map[]))])
  }

  /** What the migration does with one line. */
  datatype Fate = Blank | Corrupt | Kept | Migrated(line: string) | Raises

  function FateOf(c: Codec, line: string): Fate {
    if c.blank(line) then Blank
    else
      match c.parse(line)
      case None => Corrupt
      case Some(j) =>
        match IsLegacy(j)
        case None => Raises
        case Some(legacy) =>
          if !legacy then Kept
          else if j.Object? then Migrated(c.dump(MigrateRow(j.fields)) + "\n")
          else Raises
  }

  /** What the migration writes reads back: json.dumps of a migrated row, followed by a
      newline, is not blank and is read as that row. */
  ghost predicate RoundTrips(c: Codec) {
    forall line :: FateOf(c, line).Migrated? ==> ReadsBack(c, MigrateRow(c.parse(line).value.fields))
  }

  ghost predicate ReadsBack(c: Codec, row: Json) {
    !c.blank(c.dump(row) + "\n") && c.parse(c.dump(row) + "\n") == Some(row)
  }

  /** The line that is written for `line`. */
  function Rewrite(c: Codec, line: string): string {
    if FateOf(c, line).Migrated? then FateOf(c, line).line else line
  }

  function RewriteAll(c: Codec, lines: seq<string>): (out: seq<string>)
    ensures |out| == |lines|
    ensures forall i :: 0 <= i < |lines| ==> out[i] == Rewrite(c, lines[i])
  {
    seq(|lines|, i requires 0 <= i < |lines| => Rewrite(c, lines[i]))
  }

  datatype Counts = Counts(migrated: nat, skipped: nat, corrupt: nat)

  function Add(n: Counts, f: Fate): Counts {
    match f
    case Migrated(_) => n.(migrated := n.migrated + 1)
    case Kept => n.(skipped := n.skipped + 1)
    case Corrupt => n.(corrupt := n.corrupt + 1)
    case _ => n
  }

  function Tally(c: Codec, lines: seq<string>): Counts {
    if lines == [] then Counts(0, 0, 0)
    else Add(Tally(c, lines[..|lines| - 1]), FateOf(c, lines[|lines| - 1]))
  }

  function Corrupted(c: Codec, lines: seq<string>): seq<string> {
    if lines == [] then []
    else Corrupted(c, lines[..|lines| - 1]) +
         (if FateOf(c, lines[|lines| - 1]).Corrupt? then [lines[|lines| - 1]] else [])
  }

  /** The lines before the first one that makes the migration raise. */
  function Readable(c: Codec, lines: seq<string>): (n: nat)
    ensures n <= |lines|
    ensures forall i :: 0 <= i < n ==> !FateOf(c, lines[i]).Raises?
    ensures n < |lines| ==> FateOf(c, lines[n]).Raises?
  {
    if lines == [] || FateOf(c, lines[0]).Raises? then 0 else 1 + Readable(c, lines[1..])
  }

  // ------------------------------------------------------------------- the files

  /** The first `i` lines are copied: what the temporary file, the log and the counters
      then hold. */
  ghost predicate Copied(c: Codec, lines: seq<string>, i: nat, tmp: Option<seq<string>>,
                         log: seq<string>, log': seq<string>, counts: Counts)
    requires i <= |lines|
  {
    && i <= Readable(c, lines) && tmp == Some(RewriteAll(c, lines[..i]))
    && log' == log + Corrupted(c, lines[..i]) && counts == Tally(c, lines[..i])
  }

  lemma CopiedOne(c: Codec, lines: seq<string>, i: nat, tmp: Option<seq<string>>,
                  log: seq<string>, log': seq<string>, counts: Counts)
    requires i < |lines| && Copied(c, lines, i, tmp, log, log', counts) && !FateOf(c, lines[i]).Raises?
    ensures tmp.Some?
    ensures Copied(c, lines, i + 1, Some(tmp.value + [Rewrite(c, lines[i])]), log,
                   log' + (if FateOf(c, lines[i]).Corrupt? then [lines[i]] else []), Add(counts, FateOf(c, lines[i])))
  {
    StepForward(c, lines, i);
  }

  lemma StopsHere(c: Codec, lines: seq<string>, i: nat)
    requires i < |lines| && i <= Readable(c, lines) && FateOf(c, lines[i]).Raises?
    ensures i == Readable(c, lines)
  {
  }

  /** The journal and the files beside it. */
  class Journal {
    var file: seq<string>
    var tmp: Option<seq<string>>
    var bak: Option<seq<string>>
    var corruptLog: seq<string>

    constructor (lines: seq<string>)
      ensures file == lines && tmp == None && bak == None && corruptLog == []
    {
      file, tmp, bak, corruptLog := lines, None, None, [];
    }

    /** The copying pass of `_do_migrate`: the rewritten lines go to the temporary
        file, corrupt lines to the log; a row that raises stops it. */
    method CopyRows(c: Codec) returns (counts: Counts, raised: bool)
      modifies this
      ensures file == old(file) && bak == old(bak)
      ensures raised <==> Readable(c, old(file)) < |old(file)|
      ensures var done := old(file)[..Readable(c, old(file))];
              && tmp == Some(RewriteAll(c, done))
              && corruptLog == old(corruptLog) + Corrupted(c, done)
              && counts == Tally(c, done)
    {
      tmp := Some([]);
      counts, raised := Counts(0, 0, 0), false;
      var i := 0;
      while i < |file|
        invariant 0 <= i <= |file| && !raised
        invariant file == old(file) && bak == old(bak)
        invariant Copied(c, file, i, tmp, old(corruptLog), corruptLog, counts)
      {
        ghost var was, logged, counted := tmp, corruptLog, counts;
        counts, raised := CopyLine(c, file[i], counts);
        if raised {
          StopsHere(c, file, i);
          return;
        }
        CopiedOne(c, file, i, was, old(corruptLog), logged, counted);
        i := i + 1;
      }
      assert Readable(c, file) == |file|;
    }

    /** One line of the pass. */
    method CopyLine(c: Codec, line: string, counts: Counts) returns (counts': Counts, raised: bool)
      requires tmp.Some?
      modifies this`tmp, this`corruptLog
      ensures raised == FateOf(c, line).Raises?
      ensures raised ==> tmp == old(tmp) && corruptLog == old(corruptLog) && counts' == counts
      ensures !raised ==> tmp == Some(old(tmp).value + [Rewrite(c, line)]) && counts' == Add(counts, FateOf(c, line))
      ensures !raised ==> corruptLog == old(corruptLog) + if FateOf(c, line).Corrupt? then [line] else []
    {
      counts', raised := counts, false;
      if c.blank(line) {
        tmp := Some(tmp.value + [line]);
        return;
      }
      var row := c.parse(line);
      if row.None? {
        tmp := Some(tmp.value + [line]);
        corruptLog := corruptLog + [line];
        counts' := counts.(corrupt := counts.corrupt + 1);
        return;
      }
      var legacy := IsLegacy(row.value);
      if legacy.None? || (legacy.value && !row.value.Object?) {
        raised := true;
      } else if legacy.value {
        tmp := Some(tmp.value + [c.dump(MigrateRow(row.value.fields)) + "\n"]);
        counts' := counts.(migrated := counts.migrated + 1);
      } else {
        tmp := Some(tmp.value + [line]);
        counts' := counts.(skipped := counts.skipped + 1);
      }
    }

    /** `_do_migrate`: copy, then drop the copy or swap it in.  The first effective
        run keeps the original beside it. */
    method DoMigrate(c: Codec, dryRun: bool) returns (r: Option<Counts>)
      modifies this
      ensures r.None? <==> Readable(c, old(file)) < |old(file)|
      ensures r.None? ==> file == old(file) && bak == old(bak)
      ensures r.Some? ==>
                && r.value == Tally(c, old(file))
                && tmp == None
                && file == (if dryRun then old(file) else RewriteAll(c, old(file)))
                && bak == (if old(bak).None? && !dryRun && r.value.migrated > 0 then Some(old(file)) else old(bak))
                && corruptLog == old(corruptLog) + Corrupted(c, old(file))
    {
      var counts, raised := CopyRows(c);
      if raised {
        return None;
      }
      assert old(file)[..|old(file)|] == old(file);
      if dryRun || counts.migrated == 0 {
        NothingToMigrate(c, file);
        tmp := None;
        return Some(counts);
      }
      if bak.None? {
        bak := Some(file);
      }
      file := tmp.value;
      tmp := None;
      return Some(counts);
    }
  }

  lemma StepForward(c: Codec, lines: seq<string>, i: nat)
    requires i < |lines| && !FateOf(c, lines[i]).Raises? && i <= Readable(c, lines)
    ensures i < Readable(c, lines)
    ensures RewriteAll(c, lines[..i + 1]) == RewriteAll(c, lines[..i]) + [Rewrite(c, lines[i])]
    ensures Corrupted(c, lines[..i + 1]) ==
            Corrupted(c, lines[..i]) + (if FateOf(c, lines[i]).Corrupt? then [lines[i]] else [])
    ensures Tally(c, lines[..i + 1]) == Add(Tally(c, lines[..i]), FateOf(c, lines[i]))
  {
    assert lines[..i + 1][..i] == lines[..i];
  }

  lemma {:induction false} NothingToMigrate(c: Codec, lines: seq<string>)
    ensures Tally(c, lines).migrated == 0 <==> forall i :: 0 <= i < |lines| ==> !FateOf(c, lines[i]).Migrated?
    ensures Tally(c, lines).migrated == 0 ==> RewriteAll(c, lines) == lines
  {
    if lines != [] {
      NothingToMigrate(c, lines[..|lines| - 1]);
      if Tally(c, lines).migrated == 0 {
        assert forall i :: 0 <= i < |lines| - 1 ==> lines[..|lines| - 1][i] == lines[i];
      }
    }
  }

  // ------------------------------------------------------------------ idempotence

  /** A rewritten line is canonical: the next run keeps it. */
  lemma RewriteIsCanonical(c: Codec, line: string)
    requires RoundTrips(c)
    ensures !FateOf(c, Rewrite(c, line)).Migrated?
    ensures Rewrite(c, Rewrite(c, line)) == Rewrite(c, line)
    ensures FateOf(c, line).Raises? <==> FateOf(c, Rewrite(c, line)).Raises?
  {
    if FateOf(c, line).Migrated? {
      var row := MigrateRow(c.parse(line).value.fields);
      assert c.parse(c.dump(row) + "\n") == Some(row);
      assert "ts" in row.fields;
    }
  }

  /** Line `b` is the canonical form of the legacy line `a`: it reads as a row with the
      same time stamp, type, source and data, with the envelope's defaults where the
      legacy row had none, and nothing else. */
  ghost predicate CarriesOver(c: Codec, a: string, b: string) {
    var before, after := c.parse(a), c.parse(b);
    && before.Some? && before.value.Object? && after.Some? && after.value.Object?
    && var f, g := before.value.fields, after.value.fields;
    && g.Keys == {"ts", "type", "source", "data"}
    && "timestamp" in f && g["ts"] == f["timestamp"]
    && (forall key :: key in {"type", "source", "data"} && key in f ==> g[key] == f[key])
    && (forall key :: key in {"type", "source"} && key !in f ==> g[key] == Text(""))
    && ("data" !in f ==> g["data"] == Object(map[]))
  }

  lemma MigrationKeepsTheRow(c: Codec, line: string)
    requires RoundTrips(c) && FateOf(c, line).Migrated?
    ensures CarriesOver(c, line, Rewrite(c, line))
  {
    var f := c.parse(line).value.fields;
    assert c.parse(Rewrite(c, line)) == Some(MigrateRow(f));
  }

  // ------------------------------------------------------------- what is migrated

  /** The line reads as an object with `timestamp` and without `ts`. */
  predicate ReadsLegacy(c: Codec, line: string) {
    && !c.blank(line) && c.parse(line).Some? && c.parse(line).value.Object?
    && var f := c.parse(line).value.fields; "timestamp" in f && "ts" !in f
  }

  ghost predicate Occurs(word: string, text: string) {
    exists a, b :: text == a + word + b
  }

  /** What else the key tests take for legacy, and what they cannot test: an array or a text
      that holds the word `timestamp` and not the word `ts`, a number or a literal. */
  ghost predicate ReadsUnrowable(c: Codec, line: string) {
    && !c.blank(line) && c.parse(line).Some?
    && match c.parse(line).value
       case Object(_) => false
       case Array(items) => Text("timestamp") in items && Text("ts") !in items
       case Text(t) => Occurs("timestamp", t) && !Occurs("ts", t)
       case Scalar(_) => true
  }

  lemma {:induction false} ContainsExactly(text: string, word: string)
    ensures Contains(text, word) <==> Occurs(word, text)
  {
    if |word| <= |text| && text[..|word|] == word {
      assert text == "" + word + text[|word|..];
    } else if text != "" {
      ContainsExactly(text[1..], word);
      if a, b :| text[1..] == a + word + b {
        assert text == ([text[0]] + a) + word + b;
      }
      if a, b :| text == a + word + b {
        assert a != "";
        assert text[1..] == a[1..] + word + b;
      }
    } else if a, b :| text == a + word + b {
      assert false;
    }
  }

  /** What becomes of a line, told from what it reads as. */
  lemma FateExactly(c: Codec, line: string)
    ensures FateOf(c, line).Migrated? <==> ReadsLegacy(c, line)
    ensures FateOf(c, line).Raises? <==> ReadsUnrowable(c, line)
    ensures FateOf(c, line).Corrupt? <==> !c.blank(line) && c.parse(line).None?
    ensures FateOf(c, line).Blank? <==> c.blank(line)
  {
    if c.parse(line).Some? && c.parse(line).value.Text? {
      ContainsExactly(c.parse(line).value.text, "timestamp");
      ContainsExactly(c.parse(line).value.text, "ts");
    }
  }

  /** The file after an effective run: no line reads as a legacy row, every line that did
      carries over, and every other line is as it was, in its place. */
  lemma MigratesExactly(c: Codec, lines: seq<string>)
    requires RoundTrips(c)
    ensures var out := RewriteAll(c, lines);
            && |out| == |lines|
            && (forall line :: line in out ==> !ReadsLegacy(c, line))
            && (forall i :: 0 <= i < |lines| ==>
                  if ReadsLegacy(c, lines[i]) then CarriesOver(c, lines[i], out[i]) else out[i] == lines[i])
  {
    var out := RewriteAll(c, lines);
    forall i | 0 <= i < |lines|
      ensures !ReadsLegacy(c, out[i])
      ensures if ReadsLegacy(c, lines[i]) then CarriesOver(c, lines[i], out[i]) else out[i] == lines[i] {
      FateExactly(c, lines[i]);
      RewriteIsCanonical(c, lines[i]);
      FateExactly(c, Rewrite(c, lines[i]));
      if ReadsLegacy(c, lines[i]) {
        MigrationKeepsTheRow(c, lines[i]);
      }
    }
  }

  // -------------------------------------------------------------------- the counts

  /** The positions whose line comes to a fate. */
  function At(c: Codec, lines: seq<string>, fate: Fate -> bool): set<nat> {
    set i: nat | i < |lines| && fate(FateOf(c, lines[i]))
  }

  lemma AtGrows(c: Codec, lines: seq<string>, fate: Fate -> bool)
    requires lines != []
    ensures var n := |lines| - 1;
            |At(c, lines, fate)| == |At(c, lines[..n], fate)| + (if fate(FateOf(c, lines[n])) then 1 else 0)
  {
    var n := |lines| - 1;
    var before := At(c, lines[..n], fate);
    assert At(c, lines, fate) == before + (if fate(FateOf(c, lines[n])) then {n} else {});
  }

  /** The counters count the migrated, the kept and the corrupt lines, and the log holds
      each corrupt line as often as the file does. */
  lemma {:induction false} TallyCounts(c: Codec, lines: seq<string>, line: string)
    ensures var n := Tally(c, lines);
            && n.migrated == |At(c, lines, (f: Fate) => f.Migrated?)|
            && n.skipped == |At(c, lines, (f: Fate) => f.Kept?)|
            && n.corrupt == |At(c, lines, (f: Fate) => f.Corrupt?)|
    ensures multiset(Corrupted(c, lines))[line] == if FateOf(c, line).Corrupt? then multiset(lines)[line] else 0
  {
    if lines != [] {
      var n := |lines| - 1;
      TallyCounts(c, lines[..n], line);
      AtGrows(c, lines, (f: Fate) => f.Migrated?);
      AtGrows(c, lines, (f: Fate) => f.Kept?);
      AtGrows(c, lines, (f: Fate) => f.Corrupt?);
      assert lines == lines[..n] + [lines[n]];
    }
  }

  /** Idempotent: after an effective run, another one finds nothing, writes nothing and
      leaves the backup of the original alone. */
  method MigrateTwice(c: Codec, journal: Journal) returns (second: Option<Counts>)
    requires RoundTrips(c)
    modifies journal
    ensures Readable(c, old(journal.file)) == |old(journal.file)| ==>
              && second.Some? && second.value.migrated == 0
              && journal.file == RewriteAll(c, old(journal.file))
              && journal.bak == (if old(journal.bak).None? && Tally(c, old(journal.file)).migrated > 0
                                 then Some(old(journal.file)) else old(journal.bak))
  {
    var first := journal.DoMigrate(c, false);
    second := journal.DoMigrate(c, false);
    if first.Some? {
      SecondRun(c, old(journal.file));
    }
  }

  lemma SecondRun(c: Codec, lines: seq<string>)
    requires RoundTrips(c) && Readable(c, lines) == |lines|
    ensures var once := RewriteAll(c, lines);
            && Readable(c, once) == |once|
            && Tally(c, once).migrated == 0
            && RewriteAll(c, once) == once
  {
    var once := RewriteAll(c, lines);
    forall i | 0 <= i < |once| ensures !FateOf(c, once[i]).Migrated? && !FateOf(c, once[i]).Raises? {
      RewriteIsCanonical(c, lines[i]);
    }
    NothingToMigrate(c, once);
  }
}
