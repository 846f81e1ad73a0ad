/** Ruby's `String#split(",")`, which the web handler uses to cut a metric
    parameter into metric names: it cuts at every comma and then removes the
    empty fields at the end ("a,b," gives ["a", "b"], "" gives []), while empty
    fields elsewhere are kept (",a" gives ["", "a"]). */
module RubyString {

  /** Cuts at every comma, keeping every field: "a,,b," gives ["a", "", "b", ""]. */
  function Fields(s: string): (parts: seq<string>)
    ensures |parts| >= 1
    decreases |s|
  {
    if s == [] then [""]
    else
      var rest := Fields(s[1..]);
      if s[0] == ',' then [""] + rest else [[s[0]] + rest[0]] + rest[1..]
  }

  function DropTrailingEmpty(parts: seq<string>): seq<string>
  {
    if parts == [] || parts[|parts| - 1] != "" then parts
    else DropTrailingEmpty(parts[..|parts| - 1])
  }

  /** `s.split(",")`. */
  function Split(s: string): seq<string>
  {
    DropTrailingEmpty(Fields(s))
  }

  /** `parts.join(",")`. */
  function Join(parts: seq<string>): string
  {
    if |parts| == 0 then "" else if |parts| == 1 then parts[0] else parts[0] + "," + Join(parts[1..])
  }

  /** The fields hold no comma, and joining them with commas gives the string back. */
  lemma {:induction false} JoinFields(s: string)
    ensures Join(Fields(s)) == s
    ensures forall k :: 0 <= k < |Fields(s)| ==> ',' !in Fields(s)[k]
    decreases |s|
  {
    if s != [] {
      var rest := Fields(s[1..]);
      JoinFields(s[1..]);
      assert s == [s[0]] + s[1..];
      if s[0] != ',' {
        var parts := [[s[0]] + rest[0]] + rest[1..];
        if |rest| > 1 {
          assert parts[1..] == rest[1..];
          assert Join(rest) == rest[0] + "," + Join(rest[1..]);
        }
        forall k | 0 <= k < |parts| ensures ',' !in parts[k] {
          if k > 0 { assert parts[k] == rest[k]; }
        }
      }
    }
  }

  /** A string that is not empty and does not end in a comma has a non-empty last field. */
  lemma {:induction false} LastFieldNonEmpty(s: string)
    requires s != [] && s[|s| - 1] != ','
    ensures Fields(s)[|Fields(s)| - 1] != ""
    decreases |s|
  {
    var rest := Fields(s[1..]);
    if s[0] == ',' {
      assert s[1..] != [];
      assert s[1..][|s[1..]| - 1] == s[|s| - 1];
      LastFieldNonEmpty(s[1..]);
    } else if |rest| > 1 {
      assert s[1..] != [];
      assert s[1..][|s[1..]| - 1] == s[|s| - 1];
      LastFieldNonEmpty(s[1..]);
    }
  }

  /** Joining the parts of a split gives the string back, unless it ended in a
      comma; no part holds a comma. */
  lemma SplitJoin(s: string)
    ensures s == [] || s[|s| - 1] != ',' ==> Join(Split(s)) == s
    ensures forall k :: 0 <= k < |Split(s)| ==> ',' !in Split(s)[k]
  {
    JoinFields(s);
    if s != [] && s[|s| - 1] != ',' {
      LastFieldNonEmpty(s);
    }
    DropTrailingEmptyPrefix(Fields(s));
  }

  /** Dropping the trailing empty fields keeps a prefix, ends in a non-empty field
      (or is empty), and removes nothing but empty fields. */
  lemma {:induction false} DropTrailingEmptyPrefix(parts: seq<string>)
    ensures |DropTrailingEmpty(parts)| <= |parts|
    ensures DropTrailingEmpty(parts) == parts[..|DropTrailingEmpty(parts)|]
    ensures DropTrailingEmpty(parts) == [] || DropTrailingEmpty(parts)[|DropTrailingEmpty(parts)| - 1] != ""
    ensures forall k :: |DropTrailingEmpty(parts)| <= k < |parts| ==> parts[k] == ""
  {
    if parts != [] && parts[|parts| - 1] == "" {
      var init := parts[..|parts| - 1];
      DropTrailingEmptyPrefix(init);
      forall k | |DropTrailingEmpty(parts)| <= k < |parts| ensures parts[k] == "" {
        if k < |parts| - 1 { assert parts[k] == init[k]; }
      }
    }
  }

  /** `split(",")` is the list of all fields with every trailing empty field
      removed, and only those: "a,," gives ["a"], not ["a", ""]. */
  lemma SplitDropsTrailingEmpty(s: string)
    ensures |Split(s)| <= |Fields(s)| && Split(s) == Fields(s)[..|Split(s)|]
    ensures Split(s) == [] || Split(s)[|Split(s)| - 1] != ""
    ensures forall k :: |Split(s)| <= k < |Fields(s)| ==> Fields(s)[k] == ""
  {
    DropTrailingEmptyPrefix(Fields(s));
  }

  /** A name without a comma splits into itself alone (nothing, for the empty string). */
  lemma SplitWithoutComma(s: string)
    requires ',' !in s
    ensures Split(s) == if s == [] then [] else [s]
  {
    FieldsWithoutComma(s);
  }

  lemma {:induction false} FieldsWithoutComma(s: string)
    requires ',' !in s
    ensures Fields(s) == [s]
    decreases |s|
  {
    if s != [] {
      assert ',' !in s[1..];
      FieldsWithoutComma(s[1..]);
      assert s == [s[0]] + s[1..];
    }
  }

  /** Cutting a comma-free name off the front of a string leaves its own field. */
  lemma {:induction false} FieldsAfterName(x: string, rest: string)
    requires ',' !in x
    ensures Fields(x + "," + rest) == [x] + Fields(rest)
    decreases |x|
  {
    var t := x + "," + rest;
    if x == [] {
      assert t[0] == ',' && t[1..] == rest;
    } else {
      assert t[0] == x[0] && t[1..] == x[1..] + "," + rest;
      assert ',' !in x[1..];
      FieldsAfterName(x[1..], rest);
      assert [x[0]] + x[1..] == x;
    }
  }

  /** Two comma-free names joined by a comma split back into the two names, as long
      as the second is not empty. */
  lemma SplitPair(x: string, y: string)
    requires ',' !in x && ',' !in y && y != ""
    ensures Split(x + "," + y) == [x, y]
  {
    FieldsAfterName(x, y);
    FieldsWithoutComma(y);
    assert Fields(x + "," + y) == [x, y];
  }

  lemma SplitExamples()
    ensures Split("a,b") == ["a", "b"]
    ensures Split("a,") == ["a"]
    ensures Split(",a") == ["", "a"]
    ensures Split(",") == []
    ensures Split("a,,") == ["a"]
  {
    FieldsWithoutComma("b");
    FieldsWithoutComma("a");
    assert Fields("a") == ["a"];
    FieldsAfterName("a", ",");
    assert "a" + "," + "," == "a,,";
    assert Fields(",") == ["", ""];
    assert Fields("a,,") == ["a", "", ""];
    assert DropTrailingEmpty(["a", "", ""]) == DropTrailingEmpty(["a", ""]) by {
      assert ["a", "", ""][..2] == ["a", ""];
    }
    assert DropTrailingEmpty(["a", ""]) == ["a"] by {
      assert ["a", ""][..1] == ["a"];
    }
  }
}
