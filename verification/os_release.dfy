/** `get_os_info`: reads /etc/os-release line by line into a dictionary and
    reports the distribution's display name. */
module OsRelease {
  import opened Py
  import opened PyText

  /** The position of the first `c` in `s`. */
  function FirstIndex(s: string, c: char): (i: nat)
    requires c in s
    ensures i < |s| && s[i] == c && c !in s[..i]
  {
    if s[0] == c then 0
    else
      var j := FirstIndex(s[1..], c);
      assert s[1..][..j] == s[1..j + 1];
      1 + j
  }

  /** The entry one line contributes: none when the line holds no '=';
      otherwise the key and the value around the first '=' of the stripped
      line, the value without its surrounding '"' characters. */
  function Entry(line: string): (e: Option<(string, string)>)
    ensures e.None? <==> '=' !in line
  {
    if '=' !in line then None
    else
      var t := Strip(line);
      StripKeeps(line, '=');
      var i := FirstIndex(t, '=');
      Some((t[..i], StripChar(t[i + 1..], '"')))
  }

  /** A line with '=' is split at the FIRST '=' of the stripped line, so the
      key holds no '=' while the value may; the value has lost every leading
      and trailing '"', and nothing else. */
  lemma EntryShape(line: string)
    requires '=' in line
    ensures var e := Entry(line).value;
            var t := Strip(line);
            && '=' !in e.0
            && |e.0| < |t| && t[..|e.0|] == e.0 && t[|e.0|] == '='
            && e.1 == StripChar(t[|e.0| + 1..], '"')
            && (e.1 == [] || (e.1[0] != '"' && e.1[|e.1| - 1] != '"'))
  {
    var t := Strip(line);
    StripKeeps(line, '=');
    var i := FirstIndex(t, '=');
    var v := StripChar(t[i + 1..], '"');
    assert Entry(line) == Some((t[..i], v));
    assert |t[..i]| == i;
  }

  /** The entries of the lines, in file order. */
  function Entries(lines: seq<string>): (es: seq<Option<(string, string)>>)
    ensures |es| == |lines|
    ensures forall i :: 0 <= i < |lines| ==> es[i] == Entry(lines[i])
  {
    seq(|lines|, i requires 0 <= i < |lines| => Entry(lines[i]))
  }

  /** Entry `j` defines `key`. */
  predicate Defines(entries: seq<Option<(string, string)>>, j: int, key: string)
    requires 0 <= j < |entries|
  {
    entries[j].Some? && entries[j].value.0 == key
  }

  /** The dictionary built by storing the entries one after another. */
  function Fill(entries: seq<Option<(string, string)>>): map<string, string> {
    if entries == [] then map[]
    else
      var m := Fill(entries[..|entries| - 1]);
      var e := entries[|entries| - 1];
      if e.Some? then m[e.value.0 := e.value.1] else m
  }

  lemma FillStep(lines: seq<string>, i: nat)
    requires i < |lines|
    ensures var e := Entry(lines[i]);
            Fill(Entries(lines)[..i + 1])
              == if e.Some? then Fill(Entries(lines)[..i])[e.value.0 := e.value.1] else Fill(Entries(lines)[..i])
  {
    assert Entries(lines)[..i + 1][..i] == Entries(lines)[..i];
  }

  /** The loop of `get_os_info` over the lines of the file: the dictionary
      holds the entries of all lines, stored in file order. */
  method ReadOsRelease(lines: seq<string>) returns (osRelease: map<string, string>)
    ensures osRelease == Fill(Entries(lines))
  {
    osRelease := map[];
    var i := 0;
    while i < |lines|
      invariant 0 <= i <= |lines|
      invariant osRelease == Fill(Entries(lines)[..i])
    {
      var line := lines[i];
      var e := Entry(line);
      if e.Some? {
        osRelease := osRelease[e.value.0 := e.value.1];
      }
      FillStep(lines, i);
      i := i + 1;
    }
    assert Entries(lines)[..|lines|] == Entries(lines);
  }

  /** A key is in the dictionary exactly when some entry defines it. */
  lemma {:induction false} FillKeys(entries: seq<Option<(string, string)>>, key: string)
    ensures key in Fill(entries) <==> exists j :: 0 <= j < |entries| && Defines(entries, j, key)
  {
    if entries != [] {
      var n := |entries| - 1;
      var init := entries[..n];
      FillKeys(init, key);
      forall j | 0 <= j < n ensures Defines(init, j, key) == Defines(entries, j, key) {
        assert init[j] == entries[j];
      }
      if Defines(entries, n, key) {
        assert key in Fill(entries);
      } else {
        assert key in Fill(entries) <==> key in Fill(init);
        if exists j :: 0 <= j < |entries| && Defines(entries, j, key) {
          var j :| 0 <= j < |entries| && Defines(entries, j, key);
          assert Defines(init, j, key);
        }
      }
    }
  }

  /** The value stored for a key is the one from the last entry that
      defines it: a later line overwrites an earlier one. */
  lemma {:induction false} FillLastWins(entries: seq<Option<(string, string)>>, j: int, key: string)
    requires 0 <= j < |entries| && Defines(entries, j, key)
    requires forall l :: j < l < |entries| ==> !Defines(entries, l, key)
    ensures key in Fill(entries) && Fill(entries)[key] == entries[j].value.1
  {
    var n := |entries| - 1;
    var init := entries[..n];
    if j < n {
      forall l | j < l < n ensures !Defines(init, l, key) {
        assert init[l] == entries[l];
        assert !Defines(entries, l, key);
      }
      assert init[j] == entries[j];
      FillLastWins(init, j, key);
      assert !Defines(entries, n, key);
    }
  }

  /** The name reported from a parsed file: PRETTY_NAME, else NAME, else
      nothing at all (Python's implicit None). */
  function OsName(osRelease: map<string, string>): (name: Option<string>)
    ensures name.None? <==> "PRETTY_NAME" !in osRelease && "NAME" !in osRelease
    ensures "PRETTY_NAME" in osRelease ==> name == Some(osRelease["PRETTY_NAME"])
    ensures "PRETTY_NAME" !in osRelease && "NAME" in osRelease ==> name == Some(osRelease["NAME"])
  {
    if "PRETTY_NAME" in osRelease then Some(osRelease["PRETTY_NAME"])
    else if "NAME" in osRelease then Some(osRelease["NAME"])
    else None
  }

  /** What `get_os_info` returns: "Unknown" when the file cannot be read,
      otherwise the name chosen from its lines. */
  function OsInfo(file: Option<seq<string>>): Option<string> {
    match file
    case None => Some("Unknown")
    case Some(lines) => OsName(Fill(Entries(lines)))
  }

  /** `get_os_info` over the file's lines, or None when opening or reading
      it raised. */
  method GetOsInfo(file: Option<seq<string>>) returns (name: Option<string>)
    ensures name == OsInfo(file)
  {
    if file.None? {
      return Some("Unknown");
    }
    var osRelease := ReadOsRelease(file.value);
    if "PRETTY_NAME" in osRelease {
      name := Some(osRelease["PRETTY_NAME"]);
    } else if "NAME" in osRelease {
      name := Some(osRelease["NAME"]);
    } else {
      name := None;
    }
  }

  /** The reported name in terms of the file's lines: the value of the last
      line defining PRETTY_NAME; failing any such line, the value of the
      last line defining NAME; and no name at all (not "Unknown") when
      neither key occurs. */
  lemma OsInfoFromLines(lines: seq<string>)
    ensures var es := Entries(lines);
            OsInfo(Some(lines)).None? <==>
              forall j :: 0 <= j < |es| ==> !Defines(es, j, "PRETTY_NAME") && !Defines(es, j, "NAME")
    ensures var es := Entries(lines);
            forall j :: 0 <= j < |es| && Defines(es, j, "PRETTY_NAME")
                        && (forall l :: j < l < |es| ==> !Defines(es, l, "PRETTY_NAME"))
                        ==> OsInfo(Some(lines)) == Some(es[j].value.1)
    ensures var es := Entries(lines);
            forall j :: 0 <= j < |es| && Defines(es, j, "NAME")
                        && (forall l :: 0 <= l < |es| ==> !Defines(es, l, "PRETTY_NAME"))
                        && (forall l :: j < l < |es| ==> !Defines(es, l, "NAME"))
                        ==> OsInfo(Some(lines)) == Some(es[j].value.1)
  {
    var es := Entries(lines);
    FillKeys(es, "PRETTY_NAME");
    FillKeys(es, "NAME");
    forall j | 0 <= j < |es| && Defines(es, j, "PRETTY_NAME")
                 && (forall l :: j < l < |es| ==> !Defines(es, l, "PRETTY_NAME"))
      ensures OsInfo(Some(lines)) == Some(es[j].value.1)
    {
      FillLastWins(es, j, "PRETTY_NAME");
    }
    forall j | 0 <= j < |es| && Defines(es, j, "NAME")
                 && (forall l :: 0 <= l < |es| ==> !Defines(es, l, "PRETTY_NAME"))
                 && (forall l :: j < l < |es| ==> !Defines(es, l, "NAME"))
      ensures OsInfo(Some(lines)) == Some(es[j].value.1)
    {
      FillLastWins(es, j, "NAME");
    }
  }
}
