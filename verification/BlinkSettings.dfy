/** `mergeBlinkSettings` of src/main/blink-settings.js: a switch value is read, overridden and printed. */
module BlinkSettings {
  import Text

  datatype Option<+T> = None | Some(value: T)

  /** `value`: none for a bare name, which is not the same as an empty value. */
  datatype Setting = Setting(name: string, value: Option<string>)

  const FORCED_NAME := "dnsPrefetchingEnabled"
  const FORCED_VALUE := "false"

  /** `entry.indexOf('=')`, or the length. */
  function EqualsAt(s: string): (i: nat)
    ensures i <= |s| && '=' !in s[..i] && (i < |s| ==> s[i] == '=')
  {
    if s == "" || s[0] == '=' then 0
    else
      assert s[..1 + EqualsAt(s[1..])] == [s[0]] + s[1..][..EqualsAt(s[1..])];
      1 + EqualsAt(s[1..])
  }

  /** One entry, unless its name is empty. */
  function Read(entry: string): Option<Setting> {
    var at := EqualsAt(entry);
    var name := Text.Trim(entry[..at]);
    if name == "" then None
    else Some(Setting(name, if at == |entry| then None else Some(Text.Trim(entry[at + 1..]))))
  }

  /** `settings.set(name, value)`: an old key keeps its place. */
  function Set(settings: seq<Setting>, s: Setting): seq<Setting> {
    if settings == [] then [s]
    else if settings[0].name == s.name then [s] + settings[1..]
    else [settings[0]] + Set(settings[1..], s)
  }

  function SetAll(entries: seq<string>): seq<Setting> {
    if entries == [] then []
    else
      var before, last := SetAll(entries[..|entries| - 1]), Read(entries[|entries| - 1]);
      if last.None? then before else Set(before, last.value)
  }

  /** What a switch value says. */
  function Parse(text: string): seq<Setting> {
    SetAll(Text.Split(text, ','))
  }

  function PrintOne(s: Setting): string {
    if s.value.None? then s.name else s.name + ['='] + s.value.value
  }

  function PrintEach(settings: seq<Setting>): seq<string> {
    seq(|settings|, k requires 0 <= k < |settings| => PrintOne(settings[k]))
  }

  function Print(settings: seq<Setting>): string {
    Text.Join(PrintEach(settings), ',')
  }

  const Forced := Setting(FORCED_NAME, Some(FORCED_VALUE))

  function Merge(existing: string): string {
    Print(Set(Parse(existing), Forced))
  }

  method ReadSettings(existing: string) returns (settings: seq<Setting>)
    ensures settings == Parse(existing)
  {
    var entries := Text.Split(existing, ',');
    settings := [];
    for i := 0 to |entries|
      invariant settings == SetAll(entries[..i])
    {
      assert entries[..i + 1][..i] == entries[..i];
      var entry := entries[i];
      var at := EqualsAt(entry);
      var name := Text.Trim(entry[..at]);
      if name != "" {
        settings := Set(settings, Setting(name, if at == |entry| then None else Some(Text.Trim(entry[at + 1..]))));
      }
    }
    assert entries[..|entries|] == entries;
  }

  method PrintSettings(settings: seq<Setting>) returns (text: string)
    ensures text == Print(settings)
  {
    var printed: seq<string> := [];
    for i := 0 to |settings|
      invariant printed == PrintEach(settings)[..i]
    {
      printed := printed + [PrintOne(settings[i])];
    }
    assert printed == PrintEach(settings);
    text := Text.Join(printed, ',');
  }

  method MergeBlinkSettings(existing: string) returns (merged: string)
    ensures merged == Merge(existing)
  {
    var settings := ReadSettings(existing);
    settings := Set(settings, Forced);
    merged := PrintSettings(settings);
  }

  // ---------------------------------------------------------------- what reading gives

  predicate Trimmed(s: string) {
    Text.Trim(s) == s
  }

  /** A setting that survives being printed and read: trimmed, and without the characters that separate. */
  predicate Clean(s: Setting) {
    && s.name != "" && Trimmed(s.name) && '=' !in s.name && ',' !in s.name
    && (s.value.Some? ==> Trimmed(s.value.value) && ',' !in s.value.value)
  }

  ghost predicate AllClean(settings: seq<Setting>) {
    forall k :: 0 <= k < |settings| ==> Clean(settings[k])
  }

  ghost predicate Distinct(settings: seq<Setting>) {
    forall i, j :: 0 <= i < j < |settings| ==> settings[i].name != settings[j].name
  }

  lemma {:induction false} TrimEndFixed(s: string)
    ensures Text.TrimEnd(s) == "" || !Text.IsSpace(Text.TrimEnd(s)[|Text.TrimEnd(s)| - 1])
    ensures forall c :: c in Text.TrimEnd(s) ==> c in s
  {
    if s != [] && Text.IsSpace(s[|s| - 1]) {
      TrimEndFixed(s[..|s| - 1]);
    }
  }

  lemma {:induction false} TrimStartFixed(s: string)
    ensures Text.TrimStart(s) == "" || !Text.IsSpace(Text.TrimStart(s)[0])
    ensures forall c :: c in Text.TrimStart(s) ==> c in s
  {
    if s != [] && Text.IsSpace(s[0]) {
      TrimStartFixed(s[1..]);
    }
  }

  /** Trimming twice is trimming once, and adds no character. */
  lemma TrimTwice(s: string)
    ensures Trimmed(Text.Trim(s))
    ensures forall c :: c in Text.Trim(s) ==> c in s
  {
    TrimStartFixed(s);
    TrimEndFixed(Text.TrimStart(s));
    Text.TrimEndPrefix(Text.TrimStart(s));
    var t := Text.Trim(s);
    if t != "" {
      Text.TrimSolid(t);
    }
  }

  lemma ReadClean(entry: string)
    requires ',' !in entry && Read(entry).Some?
    ensures Clean(Read(entry).value)
  {
    var at := EqualsAt(entry);
    TrimTwice(entry[..at]);
    if at < |entry| {
      TrimTwice(entry[at + 1..]);
    }
  }

  lemma {:induction false} EqualsAtName(name: string, rest: string)
    requires '=' !in name && (rest == "" || rest[0] == '=')
    ensures EqualsAt(name + rest) == |name|
  {
    if name == "" {
      assert name + rest == rest;
    } else {
      assert (name + rest)[1..] == name[1..] + rest;
      EqualsAtName(name[1..], rest);
    }
  }

  /** Reading what was printed gives the setting back; a bare name stays one, and an empty value stays one. */
  lemma ReadPrinted(s: Setting)
    requires Clean(s)
    ensures Read(PrintOne(s)) == Some(s)
    ensures ',' !in PrintOne(s)
  {
    if s.value.None? {
      EqualsAtName(s.name, "");
      assert s.name + "" == s.name && s.name[..|s.name|] == s.name;
    } else {
      var rest := ['='] + s.value.value;
      EqualsAtName(s.name, rest);
      assert PrintOne(s) == s.name + rest;
      assert (s.name + rest)[..|s.name|] == s.name && (s.name + rest)[|s.name| + 1..] == s.value.value;
    }
  }

  lemma {:induction false} SetKeeps(settings: seq<Setting>, s: Setting)
    requires AllClean(settings) && Distinct(settings) && Clean(s)
    ensures AllClean(Set(settings, s)) && Distinct(Set(settings, s))
    ensures forall k :: 0 <= k < |Set(settings, s)| ==>
      Set(settings, s)[k].name == s.name || exists j :: 0 <= j < |settings| && settings[j] == Set(settings, s)[k]
  {
    if settings != [] && settings[0].name != s.name {
      SetKeeps(settings[1..], s);
      var rest := Set(settings[1..], s);
      forall k | 0 <= k < |rest| ensures rest[k].name != settings[0].name {
        if rest[k].name != s.name {
          var j :| 0 <= j < |settings[1..]| && settings[1..][j] == rest[k];
          assert settings[j + 1] == rest[k];
        }
      }
      forall k | 0 <= k < |Set(settings, s)|
        ensures Set(settings, s)[k].name == s.name
          || exists j :: 0 <= j < |settings| && settings[j] == Set(settings, s)[k]
      {
        if k > 0 && rest[k - 1].name != s.name {
          var j :| 0 <= j < |settings[1..]| && settings[1..][j] == rest[k - 1];
          assert settings[j + 1] == rest[k - 1];
        }
      }
    }
  }

  lemma {:induction false} SetNonEmpty(settings: seq<Setting>, s: Setting)
    ensures Set(settings, s) != []
  {
  }

  lemma {:induction false} SetAllClean(entries: seq<string>)
    requires Text.Free(entries, ',')
    ensures AllClean(SetAll(entries)) && Distinct(SetAll(entries))
  {
    if entries != [] {
      var before, last := entries[..|entries| - 1], entries[|entries| - 1];
      assert last in entries && forall e :: e in before ==> e in entries;
      SetAllClean(before);
      if Read(last).Some? {
        ReadClean(last);
        SetKeeps(SetAll(before), Read(last).value);
      }
    }
  }

  lemma ParseClean(text: string)
    ensures AllClean(Parse(text)) && Distinct(Parse(text))
  {
    Text.SplitFree(text, ',');
    SetAllClean(Text.Split(text, ','));
  }

  lemma {:induction false} SetNew(settings: seq<Setting>, s: Setting)
    requires forall k :: 0 <= k < |settings| ==> settings[k].name != s.name
    ensures Set(settings, s) == settings + [s]
  {
    if settings != [] {
      SetNew(settings[1..], s);
    }
  }

  lemma SetAllMore(entries: seq<string>, entry: string, s: Setting)
    requires Read(entry) == Some(s)
    ensures SetAll(entries + [entry]) == Set(SetAll(entries), s)
  {
    assert (entries + [entry])[..|entries|] == entries;
  }

  lemma PrintEachMore(settings: seq<Setting>, s: Setting)
    ensures PrintEach(settings + [s]) == PrintEach(settings) + [PrintOne(s)]
  {
  }

  lemma LastIsNew(before: seq<Setting>, last: Setting)
    requires AllClean(before + [last]) && Distinct(before + [last])
    ensures AllClean(before) && Distinct(before) && Clean(last)
    ensures Set(before, last) == before + [last]
  {
    var all := before + [last];
    assert all[|before|] == last && forall k :: 0 <= k < |before| ==> all[k] == before[k];
    SetNew(before, last);
  }

  lemma PrintedMore(before: seq<Setting>, last: Setting)
    requires SetAll(PrintEach(before)) == before && Set(before, last) == before + [last] && Clean(last)
    ensures SetAll(PrintEach(before + [last])) == before + [last]
  {
    ReadPrinted(last);
    PrintEachMore(before, last);
    SetAllMore(PrintEach(before), PrintOne(last), last);
  }

  lemma {:induction false} ReadAllPrinted(settings: seq<Setting>)
    requires AllClean(settings) && Distinct(settings)
    ensures SetAll(PrintEach(settings)) == settings
  {
    if settings != [] {
      var before, last := settings[..|settings| - 1], settings[|settings| - 1];
      assert settings == before + [last];
      LastIsNew(before, last);
      ReadAllPrinted(before);
      PrintedMore(before, last);
    }
  }

  lemma PrintedFree(settings: seq<Setting>)
    requires AllClean(settings)
    ensures Text.Free(PrintEach(settings), ',')
  {
    forall p | p in PrintEach(settings) ensures ',' !in p {
      var k :| 0 <= k < |settings| && PrintEach(settings)[k] == p;
      ReadPrinted(settings[k]);
    }
  }

  /** Printing and reading undo each other on settings that can be told apart. */
  lemma ParsePrinted(settings: seq<Setting>)
    requires AllClean(settings) && Distinct(settings) && settings != []
    ensures Parse(Print(settings)) == settings
  {
    PrintedFree(settings);
    Text.SplitJoin(PrintEach(settings), ',');
    ReadAllPrinted(settings);
  }

  lemma {:induction false} ForcedClean()
    ensures Clean(Forced)
  {
    Text.TrimSolid(FORCED_NAME);
    Text.TrimSolid(FORCED_VALUE);
  }

  /** Reading the result back gives what the input said, with the forced setting put in or overriding. */
  lemma MergeReadsBack(existing: string)
    ensures Parse(Merge(existing)) == Set(Parse(existing), Forced)
  {
    ParseClean(existing);
    ForcedClean();
    SetKeeps(Parse(existing), Forced);
    SetNonEmpty(Parse(existing), Forced);
    ParsePrinted(Set(Parse(existing), Forced));
  }

  lemma {:induction false} SetTwice(settings: seq<Setting>, s: Setting)
    ensures Set(Set(settings, s), s) == Set(settings, s)
  {
    if settings != [] && settings[0].name != s.name {
      SetTwice(settings[1..], s);
    }
  }

  /** Merging twice is merging once. */
  lemma {:induction false} MergeTwice(existing: string)
    ensures Merge(Merge(existing)) == Merge(existing)
  {
    MergeReadsBack(existing);
    SetTwice(Parse(existing), Forced);
  }

  // ---------------------------------------------------------------- last wins, in order of first appearance

  /** What the last entry of that name says; nothing when there is none. */
  function LastValue(entries: seq<string>, name: string): Option<Option<string>> {
    if entries == [] then None
    else
      var last := Read(entries[|entries| - 1]);
      if last.Some? && last.value.name == name then Some(last.value.value)
      else LastValue(entries[..|entries| - 1], name)
  }

  function Lookup(settings: seq<Setting>, name: string): Option<Option<string>> {
    if settings == [] then None
    else if settings[0].name == name then Some(settings[0].value)
    else Lookup(settings[1..], name)
  }

  lemma {:induction false} LookupSet(settings: seq<Setting>, s: Setting, name: string)
    ensures Lookup(Set(settings, s), name) == if name == s.name then Some(s.value) else Lookup(settings, name)
  {
    if settings != [] {
      if settings[0].name == s.name {
        assert Set(settings, s)[1..] == settings[1..];
      } else {
        LookupSet(settings[1..], s, name);
        assert Set(settings, s)[1..] == Set(settings[1..], s);
      }
    }
  }

  lemma {:induction false} LookupLast(entries: seq<string>, name: string)
    ensures Lookup(SetAll(entries), name) == LastValue(entries, name)
  {
    if entries != [] {
      var before, last := entries[..|entries| - 1], Read(entries[|entries| - 1]);
      LookupLast(before, name);
      if last.Some? {
        LookupSet(SetAll(before), last.value, name);
      }
    }
  }

  function Names(settings: seq<Setting>): seq<string> {
    seq(|settings|, k requires 0 <= k < |settings| => settings[k].name)
  }

  /** The names in the order in which they first appear. */
  function FirstNames(entries: seq<string>): seq<string> {
    if entries == [] then []
    else
      var before, last := FirstNames(entries[..|entries| - 1]), Read(entries[|entries| - 1]);
      if last.None? || last.value.name in before then before else before + [last.value.name]
  }

  lemma NamesHead(s: Setting, rest: seq<Setting>)
    ensures Names([s] + rest) == [s.name] + Names(rest)
  {
  }

  lemma {:induction false} NamesSet(settings: seq<Setting>, s: Setting)
    ensures Names(Set(settings, s)) == if s.name in Names(settings) then Names(settings) else Names(settings) + [s.name]
  {
    if settings != [] {
      var rest := settings[1..];
      assert settings == [settings[0]] + rest;
      NamesHead(settings[0], rest);
      NamesHead(s, rest);
      if settings[0].name != s.name {
        NamesSet(rest, s);
        NamesHead(settings[0], Set(rest, s));
      }
    }
  }

  lemma {:induction false} NamesFirst(entries: seq<string>)
    ensures Names(SetAll(entries)) == FirstNames(entries)
  {
    if entries != [] {
      var before, last := entries[..|entries| - 1], Read(entries[|entries| - 1]);
      NamesFirst(before);
      if last.Some? {
        NamesSet(SetAll(before), last.value);
      }
    }
  }

  /** What the merged switch says about a name: the forced value for the forced name, and for any other name what its
      last entry said; the names come in the order in which they first appeared, the forced one last if it is new. */
  lemma MergeMeans(existing: string, name: string)
    ensures Lookup(Parse(Merge(existing)), name)
      == if name == FORCED_NAME then Some(Some(FORCED_VALUE)) else LastValue(Text.Split(existing, ','), name)
    ensures var names := FirstNames(Text.Split(existing, ','));
      Names(Parse(Merge(existing))) == if FORCED_NAME in names then names else names + [FORCED_NAME]
  {
    MergeReadsBack(existing);
    LookupSet(Parse(existing), Forced, name);
    LookupLast(Text.Split(existing, ','), name);
    NamesSet(Parse(existing), Forced);
    NamesFirst(Text.Split(existing, ','));
  }

  // ---------------------------------------------------------------- on texts

  predicate Solid(s: string) {
    s != "" && !Text.IsSpace(s[0]) && !Text.IsSpace(s[|s| - 1])
  }

  /** An entry is a name with white space around it, and perhaps `=` and a value with white space around it; the value
      may be empty, and may hold a further `=`. An entry without a name says nothing. */
  lemma ReadMeans(a: string, name: string, b: string, c: string, value: string, d: string)
    requires Text.AllSpace(a) && Text.AllSpace(b) && Text.AllSpace(c) && Text.AllSpace(d)
    requires (name == "" || Solid(name)) && (value == "" || Solid(value)) && '=' !in a + name + b
    ensures Read(a + name + b) == if name == "" then None else Some(Setting(name, None))
    ensures Read(a + name + b + ("=" + (c + value + d)))
      == if name == "" then None else Some(Setting(name, Some(value)))
  {
    Text.TrimStrips(a, name, b);
    Text.TrimStrips(c, value, d);
    var left, right := a + name + b, c + value + d;
    EqualsAtName(left, "");
    assert left + "" == left && left[..|left|] == left;
    var rest := "=" + right;
    EqualsAtName(left, rest);
    assert (left + rest)[..|left|] == left && (left + rest)[|left| + 1..] == right;
  }

  /** With no setting there is the forced one. */
  lemma MergeOfNothing()
    ensures Merge("") == "dnsPrefetchingEnabled=false"
  {
    var none: seq<Setting> := [];
    Text.SplitOne("", ',');
    ReadMeans("", "", "", "", "", "");
    assert "" + "" + "" == "";
    assert Read("").None?;
    assert Parse("") == none;
    assert Set(none, Forced) == [Forced];
    assert PrintEach([Forced]) == [PrintOne(Forced)];
  }

  lemma {:induction false} JoinMore(parts: seq<string>, last: string, sep: char)
    requires parts != []
    ensures Text.Join(parts + [last], sep) == Text.Join(parts, sep) + [sep] + last
  {
    assert (parts + [last])[0] == parts[0] && (parts + [last])[1..] == parts[1..] + [last];
    if |parts| > 1 {
      JoinMore(parts[1..], last, sep);
    }
  }

  lemma AppendedText(settings: seq<Setting>, s: Setting)
    requires settings != []
    ensures Print(settings + [s]) == Print(settings) + "," + PrintOne(s)
  {
    PrintEachMore(settings, s);
    JoinMore(PrintEach(settings), PrintOne(s), ',');
  }

  /** Settings that say nothing about the forced name are left as they are, with the forced one after them; */
  lemma MergeAppends(settings: seq<Setting>, name: string)
    requires AllClean(settings) && Distinct(settings) && settings != [] && name == "dnsPrefetchingEnabled"
    requires forall k :: 0 <= k < |settings| ==> settings[k].name != name
    ensures Merge(Print(settings)) == Print(settings) + "," + (name + "=false")
  {
    ParsePrinted(settings);
    SetNew(settings, Forced);
    AppendedText(settings, Forced);
  }

  lemma {:induction false} SetOver(before: seq<Setting>, prior: Setting, after: seq<Setting>, s: Setting)
    requires prior.name == s.name && forall k :: 0 <= k < |before| ==> before[k].name != s.name
    ensures Set(before + [prior] + after, s) == before + [s] + after
  {
    var all := before + [prior] + after;
    if before == [] {
      assert all[0] == prior && all[1..] == after;
    } else {
      assert all[0] == before[0] && all[1..] == before[1..] + [prior] + after;
      SetOver(before[1..], prior, after, s);
    }
  }

  /** and where the forced name has a value, that value is replaced in its place. */
  lemma MergeOverrides(before: seq<Setting>, was: Setting, after: seq<Setting>)
    requires AllClean(before + [was] + after) && Distinct(before + [was] + after) && was.name == "dnsPrefetchingEnabled"
    ensures Merge(Print(before + [was] + after)) == Print(before + [Setting(was.name, Some("false"))] + after)
  {
    var all := before + [was] + after;
    ParsePrinted(all);
    assert all[|before|] == was && forall k :: 0 <= k < |before| ==> all[k] == before[k];
    SetOver(before, was, after, Forced);
  }
}
