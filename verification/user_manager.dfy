/** `core/user_manager.py`: the `user_info.txt` file of a user (`key: value` lines holding the
    age and the Lexile level) and the listing of users. File contents are parameters: `None`
    stands for a file or directory that does not exist. */
module UserManager {
  import opened Wrappers
  import opened Text
  import Sequences
  import Ordering

  /** The dict `load_user_info` builds: each key is present once some line has set it. */
  datatype UserInfo = UserInfo(age: Option<int>, lexile: Option<int>)

  const Empty := UserInfo(None, None)

  /** Position of the first `:` of `s`, if any. */
  function FirstColon(s: string): (r: Option<nat>)
    ensures r.Some? ==> r.value < |s| && s[r.value] == ':'
                        && forall k | 0 <= k < r.value :: s[k] != ':'
    ensures r.None? <==> forall k | 0 <= k < |s| :: s[k] != ':'
  {
    if |s| == 0 then None
    else if s[0] == ':' then Some(0)
    else match FirstColon(s[1..])
      case None => None
      case Some(i) => Some(i + 1)
  }

  /** The stripped key and value of a line holding a `:` (split at its first `:`), or `None`
      for a line the loader skips. */
  function Field(line: string): Option<(string, string)> {
    var l := Strip(line);
    match FirstColon(l)
    case None => None
    case Some(c) => Some((Strip(l[..c]), Strip(l[c + 1..])))
  }

  /** What one line of the file does to the info being built. A value of `None` is a number
      `int()` rejects with `ValueError`. */
  datatype Setting = Skip | SetAge(value: Option<int>) | SetLexile(value: Option<int>)

  /** The setting a line holds: a recognised key takes `int(value)`; other lines are skipped. */
  function Classify(line: string): Setting {
    match Field(line)
    case None => Skip
    case Some((key, value)) =>
      if key == "age" then SetAge(ParseInt(value))
      else if key == "lexile_level" then SetLexile(ParseInt(value))
      else Skip
  }

  /** A line that sets one of the two keys. */
  predicate Recognised(line: string) {
    !Classify(line).Skip?
  }

  /** One turn of the reading loop. */
  function Apply(info: UserInfo, s: Setting): (r: Result<UserInfo>)
    ensures s.Skip? ==> r == Ok(info)
    ensures r.Raised? <==> !s.Skip? && s.value.None?
    ensures r.Ok? && s.SetAge? ==> r.value == info.(age := s.value)
    ensures r.Ok? && s.SetLexile? ==> r.value == info.(lexile := s.value)
  {
    match s
    case Skip => Ok(info)
    case SetAge(v) => if v.None? then Raised("ValueError") else Ok(info.(age := v))
    case SetLexile(v) => if v.None? then Raised("ValueError") else Ok(info.(lexile := v))
  }

  /** The reading loop; the first `ValueError` escapes. */
  function Run(info: UserInfo, settings: seq<Setting>): Result<UserInfo>
    decreases |settings|
  {
    if |settings| == 0 then Ok(info)
    else match Apply(info, settings[0])
      case Raised(e) => Raised(e)
      case Ok(next) => Run(next, settings[1..])
  }

  /** The setting of each line, in file order. */
  function Settings(lines: seq<string>): seq<Setting> {
    Sequences.Map(Classify, lines)
  }

  /** `load_user_info`: `None` when the file is missing or sets neither key. */
  function LoadUserInfo(file: Option<string>): (r: Result<Option<UserInfo>>)
    ensures file.None? ==> r == Ok(None)
  {
    match file
    case None => Ok(None)
    case Some(text) =>
      match Run(Empty, Settings(Lines(text)))
      case Raised(e) => Raised(e)
      case Ok(info) => Ok(if info == Empty then None else Some(info))
  }

  /** A `key: value` line as the saver writes it (without its newline). */
  function Written(key: string, value: int): string {
    key + ": " + IntToString(value)
  }

  /** The text `save_user_info` writes. */
  function SaveUserInfo(age: int, lexile: int): string {
    Written("age", age) + "\n" + Written("lexile_level", lexile) + "\n"
  }

  // ---------------------------------------------------------------- reading loop facts

  /** Reading two runs of lines is reading the first, then the second from where it left off. */
  lemma {:induction false} RunAppend(info: UserInfo, a: seq<Setting>, b: seq<Setting>)
    ensures Run(info, a + b) == match Run(info, a)
                                case Raised(e) => Raised(e)
                                case Ok(mid) => Run(mid, b)
    decreases |a|
  {
    if |a| > 0 {
      assert (a + b)[0] == a[0];
      assert (a + b)[1..] == a[1..] + b;
      match Apply(info, a[0])
      case Raised(e) =>
        assert Run(info, a) == Raised(e);
        assert Run(info, a + b) == Raised(e);
      case Ok(next) =>
        RunAppend(next, a[1..], b);
        assert Run(info, a) == Run(next, a[1..]);
        assert Run(info, a + b) == Run(next, a[1..] + b);
    } else {
      assert a + b == b;
    }
  }

  /** Settings that all skip leave the info as it was. */
  lemma {:induction false} SkippedLines(info: UserInfo, settings: seq<Setting>)
    requires forall k | 0 <= k < |settings| :: settings[k].Skip?
    ensures Run(info, settings) == Ok(info)
    decreases |settings|
  {
    if |settings| > 0 {
      assert settings[0].Skip?;
      assert forall k | 0 <= k < |settings| - 1 :: settings[1..][k] == settings[k + 1];
      SkippedLines(info, settings[1..]);
    }
  }

  /** Once a key is set it stays set, and a setting that is not a skip sets one. */
  lemma {:induction false} SetKeysStay(info: UserInfo, settings: seq<Setting>)
    requires Run(info, settings).Ok?
    ensures info != Empty ==> Run(info, settings).value != Empty
    ensures (exists k | 0 <= k < |settings| :: !settings[k].Skip?) ==> Run(info, settings).value != Empty
    decreases |settings|
  {
    if |settings| > 0 {
      var next := Apply(info, settings[0]).value;
      SetKeysStay(next, settings[1..]);
      if exists k | 0 <= k < |settings| :: !settings[k].Skip? {
        var k :| 0 <= k < |settings| && !settings[k].Skip?;
        if k > 0 {
          assert settings[1..][k - 1] == settings[k];
        }
      }
    }
  }

  predicate AllSkip(settings: seq<Setting>) {
    forall k | 0 <= k < |settings| :: settings[k].Skip?
  }

  /** No line of the file sets either key. */
  predicate NoKeyLines(lines: seq<string>) {
    forall k | 0 <= k < |lines| :: !Recognised(lines[k])
  }

  /** The loop ends with no key set exactly when every setting is a skip. */
  lemma NothingSetIff(settings: seq<Setting>)
    requires Run(Empty, settings).Ok?
    ensures Run(Empty, settings).value == Empty <==> AllSkip(settings)
  {
    if AllSkip(settings) {
      SkippedLines(Empty, settings);
    } else {
      SetKeysStay(Empty, settings);
    }
  }

  /** The loader reports no info exactly when no line sets either key (and none raised). */
  lemma NoInfoIff(text: string)
    requires LoadUserInfo(Some(text)).Ok?
    ensures LoadUserInfo(Some(text)) == Ok(None) <==> NoKeyLines(Lines(text))
  {
    var lines := Lines(text);
    var settings := Settings(lines);
    NothingSetIff(settings);
    assert AllSkip(settings) <==> NoKeyLines(lines);
  }

  // ---------------------------------------------------------------- round trip

  /** A key as the saver writes it: not blank at either end, with no `:` and no line break. */
  predicate PlainKey(key: string) {
    && |key| > 0 && !IsSpace(key[0]) && !IsSpace(key[|key| - 1])
    && forall k | 0 <= k < |key| :: key[k] != ':' && !IsLineBreak(key[k])
  }

  /** A written line is read back as its key and the printed number. */
  lemma FieldOfWritten(key: string, n: int)
    requires PlainKey(key)
    ensures Field(Written(key, n)) == Some((key, IntToString(n)))
  {
    var value := IntToString(n);
    var line := Written(key, n);
    WrittenShape(key, n);
    Sequences.SplitAround(key, ':', " " + value);
    WrittenTidy(key, n);
    ColonAfterKey(key, line);
    StripOfTrimmed(key);
    StripLeadingSpace(value);
  }

  lemma WrittenShape(key: string, n: int)
    ensures Written(key, n) == key + [':'] + (" " + IntToString(n))
  {
  }

  lemma WrittenTidy(key: string, n: int)
    requires PlainKey(key)
    ensures Strip(Written(key, n)) == Written(key, n)
  {
    var line := Written(key, n);
    var value := IntToString(n);
    assert line[0] == key[0];
    assert line[|line| - 1] == value[|value| - 1];
    StripOfTrimmed(line);
  }

  /** The first `:` of a line that starts with a key without one is the one after the key. */
  lemma ColonAfterKey(key: string, line: string)
    requires forall k | 0 <= k < |key| :: key[k] != ':'
    requires |key| < |line| && line[..|key|] == key && line[|key|] == ':'
    ensures FirstColon(line) == Some(|key|)
  {
    forall k | 0 <= k < |key|
      ensures line[k] != ':'
    {
      assert line[k] == line[..|key|][k];
    }
  }

  /** A written line holds no line break. */
  lemma WrittenOneLine(key: string, n: int)
    requires PlainKey(key)
    ensures !HasLineBreak(Written(key, n))
  {
    var line := Written(key, n);
    var value := IntToString(n);
    forall k | 0 <= k < |line|
      ensures !IsLineBreak(line[k])
    {
      if k < |key| {
        assert line[k] == key[k];
      } else if k >= |key| + 2 {
        assert line[k] == value[k - |key| - 2];
      }
    }
  }

  lemma AgeLineRead(age: int)
    ensures Classify(Written("age", age)) == SetAge(Some(age))
  {
    FieldOfWritten("age", age);
    IntToStringRoundTrip(age);
  }

  lemma LexileLineRead(lexile: int)
    ensures Classify(Written("lexile_level", lexile)) == SetLexile(Some(lexile))
  {
    FieldOfWritten("lexile_level", lexile);
    IntToStringRoundTrip(lexile);
  }

  lemma BlankLineSkipped()
    ensures Classify("") == Skip
  {
    assert Strip("") == "";
    assert FirstColon("") == None;
  }

  /** The lines of the saved file: one per key, then the empty remainder after the last newline. */
  lemma SavedLines(age: int, lexile: int)
    ensures Lines(SaveUserInfo(age, lexile))
            == [Written("age", age), Written("lexile_level", lexile), ""]
  {
    var l1 := Written("age", age);
    var l2 := Written("lexile_level", lexile);
    Sequences.ConcatAssoc(l1 + "\n", l2, "\n");
    Sequences.AppendEmpty(l2 + "\n");
    WrittenOneLine("age", age);
    WrittenOneLine("lexile_level", lexile);
    LinesCons(l1, l2 + "\n" + "");
    LinesCons(l2, "");
    LinesOfEmpty();
    Sequences.Literals(l1, l2, "");
  }

  /** Saving then loading gives back both numbers. */
  lemma SaveLoadRoundTrip(age: int, lexile: int)
    ensures LoadUserInfo(Some(SaveUserInfo(age, lexile))) == Ok(Some(UserInfo(Some(age), Some(lexile))))
  {
    SavedSettings(age, lexile);
    var full := UserInfo(Some(age), Some(lexile));
    RunSaved(age, lexile);
    assert full != Empty;
  }

  /** The saved file holds an age setting, a Lexile setting and nothing else. */
  lemma SavedSettings(age: int, lexile: int)
    ensures Settings(Lines(SaveUserInfo(age, lexile))) == [SetAge(Some(age)), SetLexile(Some(lexile)), Skip]
  {
    SavedLines(age, lexile);
    Sequences.MapThree(Classify, Written("age", age), Written("lexile_level", lexile), "");
    AgeLineRead(age);
    LexileLineRead(lexile);
    BlankLineSkipped();
  }

  lemma RunSaved(age: int, lexile: int)
    ensures Run(Empty, [SetAge(Some(age)), SetLexile(Some(lexile)), Skip]) == Ok(UserInfo(Some(age), Some(lexile)))
  {
    var settings := [SetAge(Some(age)), SetLexile(Some(lexile)), Skip];
    var full := UserInfo(Some(age), Some(lexile));
    assert Run(full, settings[2..]) == Ok(full) by {
      assert settings[2..][1..] == [];
    }
    assert settings[1..][1..] == settings[2..];
  }

  /** A line appended later overrides the age read from the earlier lines. */
  lemma LaterAgeWins(text: string, age: int)
    requires Run(Empty, Settings(Lines(text))).Ok?
    ensures var before := Run(Empty, Settings(Lines(text))).value;
            LoadUserInfo(Some(text + "\n" + (Written("age", age) + "\n")))
            == Ok(Some(before.(age := Some(age))))
  {
    var before := Run(Empty, Settings(Lines(text))).value;
    var tail := [SetAge(Some(age)), Skip];
    AppendedSettings(text, "age", age);
    AgeLineRead(age);
    RunAppend(Empty, Settings(Lines(text)), tail);
    RunAgeTail(before, age);
    assert before.(age := Some(age)) != Empty;
  }

  /** A line appended later overrides the Lexile level read from the earlier lines. */
  lemma LaterLexileWins(text: string, lexile: int)
    requires Run(Empty, Settings(Lines(text))).Ok?
    ensures var before := Run(Empty, Settings(Lines(text))).value;
            LoadUserInfo(Some(text + "\n" + (Written("lexile_level", lexile) + "\n")))
            == Ok(Some(before.(lexile := Some(lexile))))
  {
    var before := Run(Empty, Settings(Lines(text))).value;
    var tail := [SetLexile(Some(lexile)), Skip];
    AppendedSettings(text, "lexile_level", lexile);
    LexileLineRead(lexile);
    RunAppend(Empty, Settings(Lines(text)), tail);
    RunLexileTail(before, lexile);
    assert before.(lexile := Some(lexile)) != Empty;
  }

  lemma AppendedLines(text: string, key: string, n: int)
    requires PlainKey(key)
    ensures Lines(text + "\n" + (Written(key, n) + "\n")) == Lines(text) + [Written(key, n), ""]
  {
    var line := Written(key, n);
    WrittenOneLine(key, n);
    LinesAppend(text, line + "\n");
    Sequences.AppendEmpty(line + "\n");
    LinesCons(line, "");
    LinesOfEmpty();
    Sequences.Literals(line, "", "");
  }

  lemma AppendedSettings(text: string, key: string, n: int)
    requires PlainKey(key)
    ensures Settings(Lines(text + "\n" + (Written(key, n) + "\n")))
            == Settings(Lines(text)) + [Classify(Written(key, n)), Skip]
  {
    AppendedLines(text, key, n);
    Sequences.MapAppend(Classify, Lines(text), [Written(key, n), ""]);
    Sequences.MapTwo(Classify, Written(key, n), "");
    BlankLineSkipped();
  }

  lemma RunAgeTail(info: UserInfo, age: int)
    ensures Run(info, [SetAge(Some(age)), Skip]) == Ok(info.(age := Some(age)))
  {
    var tail := [SetAge(Some(age)), Skip];
    var after := info.(age := Some(age));
    assert tail[1..] == [Skip];
    assert Run(after, tail[1..]) == Ok(after) by {
      assert tail[1..][1..] == [];
    }
  }

  lemma RunLexileTail(info: UserInfo, lexile: int)
    ensures Run(info, [SetLexile(Some(lexile)), Skip]) == Ok(info.(lexile := Some(lexile)))
  {
    var tail := [SetLexile(Some(lexile)), Skip];
    var after := info.(lexile := Some(lexile));
    assert tail[1..] == [Skip];
    assert Run(after, tail[1..]) == Ok(after) by {
      assert tail[1..][1..] == [];
    }
  }

  // ---------------------------------------------------------------- listing users

  /** An entry of the users directory. */
  datatype Entry = Entry(name: string, isDir: bool)

  function Name(s: string): string { s }

  /** The names of the sub-directories, in listing order. */
  function Directories(entries: seq<Entry>): (r: seq<string>)
    ensures forall n :: n in r <==> exists k | 0 <= k < |entries| :: entries[k].isDir && entries[k].name == n
  {
    if |entries| == 0 then []
    else
      var rest := Directories(entries[1..]);
      assert forall k | 1 <= k < |entries| :: entries[1..][k - 1] == entries[k];
      (if entries[0].isDir then [entries[0].name] else []) + rest
  }

  /** `list_users`: the directory names, sorted; none when the users directory is missing. */
  function ListUsers(listing: Option<seq<Entry>>): (r: seq<string>)
    ensures listing.None? ==> r == []
    ensures Ordering.SortedBy(r, Name, false)
    ensures listing.Some? ==> multiset(r) == multiset(Directories(listing.value))
  {
    match listing
    case None => []
    case Some(entries) => Ordering.SortBy(Directories(entries), Name, false)
  }

  /** A name is listed exactly when it names a sub-directory. */
  lemma ListedIff(entries: seq<Entry>, n: string)
    ensures n in ListUsers(Some(entries))
            <==> exists k | 0 <= k < |entries| :: entries[k].isDir && entries[k].name == n
  {
    var r := ListUsers(Some(entries));
    assert n in r <==> n in multiset(r);
    assert n in Directories(entries) <==> n in multiset(Directories(entries));
  }

  /** Names in a directory are distinct, so no user is listed twice. */
  lemma ListedOnce(entries: seq<Entry>)
    requires forall i, j | 0 <= i < j < |entries| :: entries[i].name != entries[j].name
    ensures Ordering.DistinctKeys(ListUsers(Some(entries)), Name)
  {
    DirectoriesDistinct(entries);
    Ordering.SortKeepsDistinctKeys(Directories(entries), Name, false);
  }

  lemma {:induction false} DirectoriesDistinct(entries: seq<Entry>)
    requires forall i, j | 0 <= i < j < |entries| :: entries[i].name != entries[j].name
    ensures Ordering.DistinctKeys(Directories(entries), Name)
  {
    if |entries| > 0 {
      var tail := entries[1..];
      assert forall i, j | 0 <= i < j < |tail| :: tail[i].name != tail[j].name by {
        forall i, j | 0 <= i < j < |tail|
          ensures tail[i].name != tail[j].name
        {
          assert tail[i] == entries[i + 1] && tail[j] == entries[j + 1];
        }
      }
      DirectoriesDistinct(tail);
      var rest := Directories(tail);
      if entries[0].isDir {
        forall y | y in rest
          ensures Name(y) != Name(entries[0].name)
        {
          var k :| 0 <= k < |tail| && tail[k].isDir && tail[k].name == y;
          assert tail[k] == entries[k + 1];
        }
        Ordering.ConsDistinct(entries[0].name, rest, Name);
      } else {
        assert Directories(entries) == rest;
      }
    }
  }
}
