/** Lists stored as one text: account keys joined by newlines, model names joined by commas. */
module ListText {
  import opened Seqs
  import opened Text

  /** `strings.Join`. */
  function Join(items: seq<string>, sep: char): string {
    if items == [] then "" else if |items| == 1 then items[0] else items[0] + [sep] + Join(items[1..], sep)
  }

  /** `strings.Split` with a one-character separator. */
  function Split(s: string, sep: char): (r: seq<string>)
    ensures r != [] && forall k :: 0 <= k < |r| ==> sep !in r[k]
  {
    if s == "" then [""]
    else if s[0] == sep then [""] + Split(s[1..], sep)
    else var r := Split(s[1..], sep); [[s[0]] + r[0]] + r[1..]
  }

  predicate Bare(s: string, sep: char) {
    s == "" || (s[0] != sep && s[|s| - 1] != sep)
  }

  function StripLeft(s: string, sep: char): (r: string)
    ensures r == "" || r[0] != sep
    ensures s == "" || s[0] != sep ==> r == s
  {
    if s != "" && s[0] == sep then StripLeft(s[1..], sep) else s
  }

  function StripRight(s: string, sep: char): (r: string)
    ensures |r| <= |s| && r == s[..|r|]
    ensures r == "" || r[|r| - 1] != sep
    ensures s == "" || s[|s| - 1] != sep ==> r == s
  {
    if s != "" && s[|s| - 1] == sep then StripRight(s[..|s| - 1], sep) else s
  }

  /** `strings.Trim` with a one-character cut set. */
  function Strip(s: string, sep: char): (r: string)
    ensures Bare(r, sep)
    ensures Bare(s, sep) ==> r == s
  {
    StripRight(StripLeft(s, sep), sep)
  }

  /** How both lists are read back. */
  function Parse(s: string, sep: char): seq<string> {
    if s == "" then [] else Split(Strip(s, sep), sep)
  }

  lemma {:induction false} SplitFirst(a: string, rest: string, sep: char)
    requires sep !in a
    ensures Split(a, sep) == [a]
    ensures Split(a + [sep] + rest, sep) == [a] + Split(rest, sep)
  {
    var s := a + [sep] + rest;
    if a == "" {
      assert s == [sep] + rest;
      assert s[1..] == rest;
    } else {
      SplitFirst(a[1..], rest, sep);
      assert s[1..] == a[1..] + [sep] + rest;
      assert a == [a[0]] + a[1..];
    }
  }

  lemma {:induction false} SplitJoin(items: seq<string>, sep: char)
    requires items != [] && forall k :: 0 <= k < |items| ==> sep !in items[k]
    ensures Split(Join(items, sep), sep) == items
  {
    if |items| == 1 {
      SplitFirst(items[0], "", sep);
    } else {
      SplitJoin(items[1..], sep);
      SplitFirst(items[0], Join(items[1..], sep), sep);
    }
  }

  lemma {:induction false} JoinSplit(s: string, sep: char)
    ensures Join(Split(s, sep), sep) == s
  {
    if s != "" {
      JoinSplit(s[1..], sep);
      var r := Split(s[1..], sep);
      if s[0] == sep {
        assert ([""] + r)[1..] == r;
      } else {
        var t := [[s[0]] + r[0]] + r[1..];
        assert t[1..] == r[1..];
        assert s == [s[0]] + s[1..];
      }
    }
  }

  lemma {:induction false} JoinEnds(items: seq<string>, sep: char)
    requires items != [] && items[0] != "" && items[|items| - 1] != ""
    requires forall k :: 0 <= k < |items| ==> sep !in items[k]
    ensures Join(items, sep) != "" && Bare(Join(items, sep), sep)
  {
    var s := Join(items, sep);
    JoinLast(items, sep);
    assert s[0] == items[0][0];
  }

  lemma {:induction false} JoinLast(items: seq<string>, sep: char)
    requires items != [] && items[|items| - 1] != ""
    ensures var s := Join(items, sep); var last := items[|items| - 1];
            |s| >= |last| && s[|s| - 1] == last[|last| - 1]
  {
    if |items| > 1 {
      JoinLast(items[1..], sep);
    }
  }

  ghost predicate Storable(items: seq<string>, sep: char) {
    items == [] ||
    (items[0] != "" && items[|items| - 1] != "" && forall k :: 0 <= k < |items| ==> sep !in items[k])
  }

  /** A list survives being stored as text and read back exactly when no item holds the separator and the first and
      last item, if any, are not empty. */
  lemma ParseJoinIff(items: seq<string>, sep: char)
    ensures Parse(Join(items, sep), sep) == items <==> Storable(items, sep)
  {
    var s := Join(items, sep);
    if Storable(items, sep) && items != [] {
      JoinEnds(items, sep);
      SplitJoin(items, sep);
    }
    if Parse(s, sep) == items && items != [] {
      assert s != "";
      JoinSplit(Strip(s, sep), sep);
      assert Bare(s, sep);
      if |items| > 1 && items[|items| - 1] == "" {
        JoinEmptyLast(items, sep);
      }
    }
  }

  lemma {:induction false} JoinEmptyLast(items: seq<string>, sep: char)
    requires |items| > 1 && items[|items| - 1] == ""
    ensures var s := Join(items, sep); s != "" && s[|s| - 1] == sep
  {
    if |items| > 2 {
      JoinEmptyLast(items[1..], sep);
    } else {
      assert Join(items[1..], sep) == "";
      assert items[0] + [sep] + "" == items[0] + [sep];
    }
  }

  // ---------------------------------------------------------------- account keys

  /** Reads the elements of a JSON array; fails on any other text. */
  type ArrayReader = string -> Option<seq<string>>

  /** An array is longer than its elements with a separator between any two: it has the same number of commas, and
      brackets around them. */
  ghost predicate Bracketed(elements: ArrayReader) {
    forall s :: elements(s).Some? ==> |Join(elements(s).value, '\n')| < |s|
  }

  predicate ReadsAsArray(s: string, elements: ArrayReader) {
    "[" <= TrimSpace(s) && elements(TrimSpace(s)).Some?
  }

  /** How account keys are read back: a JSON array gives its elements, any other text its lines. */
  function ReadKeys(s: string, elements: ArrayReader): seq<string> {
    if s == "" then []
    else if ReadsAsArray(s, elements) then elements(TrimSpace(s)).value
    else Split(Strip(s, '\n'), '\n')
  }

  /** Account keys survive being stored exactly when they survive as lines and the text is not taken for an array. */
  lemma KeysTextIff(keys: seq<string>, elements: ArrayReader)
    requires Bracketed(elements)
    ensures var s := Join(keys, '\n');
            ReadKeys(s, elements) == keys <==>
            Storable(keys, '\n') && !("[" <= TrimSpace(s) && elements(TrimSpace(s)).Some?)
  {
    hide TrimSpace, Split, Strip;
    var s := Join(keys, '\n');
    ParseJoinIff(keys, '\n');
    TrimShorter(s);
    if ReadsAsArray(s, elements) {
      assert s != "" by {
        assert Trimmed("");
      }
      assert |Join(elements(TrimSpace(s)).value, '\n')| < |s|;
    }
  }

  /** A sole key that looks like an array of one number survives as a line, and comes back as the number. */
  lemma BracketedKeyIsLost(elements: ArrayReader)
    requires elements("[1]") == Some(["1"])
    ensures Storable(["[1]"], '\n') && ReadKeys(Join(["[1]"], '\n'), elements) == ["1"]
  {
    hide TrimSpace;
    assert Trimmed("[1]");
  }

  lemma TrimShorter(s: string)
    ensures |TrimSpace(s)| <= |s|
  {
  }
}
