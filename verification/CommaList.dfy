/** Comma-separated settings: parsed from an environment string, printed into a header. */
module CommaList {

  /** The characters strings.TrimSpace removes: Unicode White_Space. */
  predicate IsSpace(c: char)
  {
    var u := c as int;
    || 0x09 <= u <= 0x0D || u == 0x20 || u == 0x85 || u == 0xA0 || u == 0x1680
    || 0x2000 <= u <= 0x200A || u == 0x2028 || u == 0x2029 || u == 0x202F || u == 0x205F || u == 0x3000
  }

  function TrimLeft(s: string): string
  {
    if s != "" && IsSpace(s[0]) then TrimLeft(s[1..]) else s
  }

  function TrimRight(s: string): string
  {
    if s != "" && IsSpace(s[|s| - 1]) then TrimRight(s[..|s| - 1]) else s
  }

  function Trim(s: string): string { TrimRight(TrimLeft(s)) }

  function Split(s: string): (parts: seq<string>)
    ensures parts != []
  {
    if s == "" then [""]
    else if s[0] == ',' then [""] + Split(s[1..])
    else var rest := Split(s[1..]); [[s[0]] + rest[0]] + rest[1..]
  }

  function Kept(parts: seq<string>): seq<string>
  {
    if parts == [] then [] else
      (if Trim(parts[0]) != "" then [Trim(parts[0])] else []) + Kept(parts[1..])
  }

  function Parse(s: string): seq<string> { Kept(Split(s)) }

  function Join(xs: seq<string>): string
  {
    if xs == [] then "" else if |xs| == 1 then xs[0] else xs[0] + ", " + Join(xs[1..])
  }

  /** The setting `value`, or the default when it names nothing. */
  method CommaSeparated(value: string, default: seq<string>) returns (result: seq<string>)
    ensures result == if Parse(value) == [] then default else Parse(value)
  {
    NothingParsed();
    hide Trim, Split;
    if value == "" {
      return default;
    }
    var parts := Split(value);
    result := [];
    assert parts[0..] == parts;
    for i := 0 to |parts|
      invariant Kept(parts) == result + Kept(parts[i..])
    {
      var trimmed := Trim(parts[i]);
      assert parts[i..][0] == parts[i] && parts[i..][1..] == parts[i + 1..];
      ghost var more, rest := if trimmed != "" then [trimmed] else [], Kept(parts[i + 1..]);
      assert result + (more + rest) == (result + more) + rest;
      if trimmed != "" {
        result := result + [trimmed];
      }
    }
    if |result| == 0 {
      return default;
    }
  }

  lemma NothingParsed()
    ensures Parse("") == []
  {
    assert Split("") == [""] && Trim("") == "" && Kept([""]) == Kept([""][1..]);
  }

  // -------- what a parsed list looks like --------

  /** Non-empty, comma-free, no white space at either end. */
  ghost predicate Clean(x: string)
  {
    x != "" && ',' !in x && !IsSpace(x[0]) && !IsSpace(x[|x| - 1])
  }

  lemma {:induction false} TrimLeftClean(s: string)
    requires ',' !in s
    ensures ',' !in TrimLeft(s) && (TrimLeft(s) != "" ==> !IsSpace(TrimLeft(s)[0]))
  {
    if s != "" && IsSpace(s[0]) { TrimLeftClean(s[1..]); }
  }

  lemma {:induction false} TrimRightClean(s: string)
    requires ',' !in s
    ensures ',' !in TrimRight(s) && TrimRight(s) <= s
    ensures TrimRight(s) != "" ==> !IsSpace(TrimRight(s)[|TrimRight(s)| - 1])
  {
    if s != "" && IsSpace(s[|s| - 1]) { TrimRightClean(s[..|s| - 1]); }
  }

  lemma TrimClean(s: string)
    requires ',' !in s
    ensures Trim(s) != "" ==> Clean(Trim(s))
  {
    TrimLeftClean(s);
    TrimRightClean(TrimLeft(s));
  }

  lemma {:induction false} SplitCommaFree(s: string)
    ensures forall k :: 0 <= k < |Split(s)| ==> ',' !in Split(s)[k]
  {
    if s != "" { SplitCommaFree(s[1..]); }
  }

  lemma {:induction false} KeptClean(parts: seq<string>)
    requires forall k :: 0 <= k < |parts| ==> ',' !in parts[k]
    ensures forall k :: 0 <= k < |Kept(parts)| ==> Clean(Kept(parts)[k])
  {
    if parts != [] {
      TrimClean(parts[0]);
      KeptClean(parts[1..]);
    }
  }

  lemma {:induction false} SplitAtComma(a: string, b: string)
    requires ',' !in a
    ensures Split(a + "," + b) == [a] + Split(b) && Split(a) == [a]
  {
    if a == "" {
      assert (a + "," + b)[1..] == b;
    } else {
      SplitAtComma(a[1..], b);
      assert (a + "," + b)[1..] == a[1..] + "," + b;
      assert [a[0]] + a[1..] == a;
    }
  }

  lemma {:induction false} CleanUntouched(x: string)
    requires Clean(x)
    ensures Trim(x) == x && Trim(" " + x) == x
  {
    assert (" " + x)[1..] == x;
  }

  lemma PaddedTrims(x: string, pad: string)
    requires Clean(x) && (pad == "" || pad == " ")
    ensures Trim(pad + x) == x != "" && ',' !in pad + x
  {
    CleanUntouched(x);
    assert "" + x == x;
  }

  lemma ParseOne(x: string)
    requires ',' !in x && Trim(x) != ""
    ensures Parse(x) == [Trim(x)]
  {
    hide Trim;
    SplitAtComma(x, "");
    assert Kept([x]) == [Trim(x)] + Kept([x][1..]);
  }

  lemma ParseCons(x: string, rest: string)
    requires ',' !in x && Trim(x) != ""
    ensures Parse(x + "," + rest) == [Trim(x)] + Parse(rest)
  {
    hide Trim, Split;
    SplitAtComma(x, rest);
    assert ([x] + Split(rest))[1..] == Split(rest);
  }

  lemma JoinCons(xs: seq<string>, pad: string)
    requires |xs| > 1
    ensures pad + Join(xs) == (pad + xs[0]) + "," + (" " + Join(xs[1..]))
  {
  }

  lemma {:induction false} CleanJoinParses(xs: seq<string>, pad: string)
    requires xs != [] && forall k :: 0 <= k < |xs| ==> Clean(xs[k])
    requires pad == "" || pad == " "
    ensures Parse(pad + Join(xs)) == xs
    decreases |xs|
  {
    hide Trim, Parse, Clean, Join;
    PaddedTrims(xs[0], pad);
    if |xs| == 1 {
      JoinOne(xs);
      ParseOne(pad + xs[0]);
    } else {
      CleanJoinParses(xs[1..], " ");
      JoinCons(xs, pad);
      ParseCons(pad + xs[0], " " + Join(xs[1..]));
    }
  }

  lemma JoinOne(xs: seq<string>)
    requires |xs| == 1
    ensures Join(xs) == xs[0]
  {
  }

  /** Blanks, tabs and line breaks around an item are dropped. */
  lemma BlanksAreDropped(x: string, blank: char)
    requires Clean(x) && blank in " \t\r\n\U{000B}\U{000C}\U{0085}\U{00A0}"
    ensures Parse([blank] + x + [blank]) == [x]
  {
    var s := [blank] + x + [blank];
    assert s[1..] == x + [blank] && (x + [blank])[..|x|] == x;
    CleanUntouched(x);
    assert TrimLeft(s) == TrimLeft(x + [blank]) == x + [blank];
    assert TrimRight(x + [blank]) == TrimRight(x) == x;
    ParseOne(s);
  }

  /** Every other printable ASCII character is kept, wherever it stands. */
  lemma TheRestIsKept(c: char)
    requires '!' <= c <= '~' && c != ','
    ensures Parse([c]) == [[c]]
  {
    CleanUntouched([c]);
    ParseOne([c]);
  }

  /** What can come out of parsing: exactly the lists of clean items. */
  lemma ParseImage(xs: seq<string>)
    ensures (exists s :: Parse(s) == xs) <==> forall k :: 0 <= k < |xs| ==> Clean(xs[k])
  {
    if s :| Parse(s) == xs {
      SplitCommaFree(s);
      KeptClean(Split(s));
    }
    if forall k :: 0 <= k < |xs| ==> Clean(xs[k]) {
      if xs == [] {
        NothingParsed();
      } else {
        CleanJoinParses(xs, "");
        assert "" + Join(xs) == Join(xs);
        assert Parse(Join(xs)) == xs;
      }
    }
  }

  /** The value the CORS middleware prints, with its own fallback. */
  function HeaderValue(xs: seq<string>, fallback: string): (value: string)
    ensures fallback != "" ==> value != ""
    ensures xs == [] ==> value == fallback
  {
    var joined := Join(xs);
    if joined == "" then fallback else joined
  }

  /** A longer list is printed as the shorter one, a comma and a blank, and the last item. */
  lemma {:induction false} JoinAppend(xs: seq<string>, x: string)
    requires xs != []
    ensures Join(xs + [x]) == Join(xs) + ", " + x
    decreases |xs|
  {
    if |xs| > 1 {
      assert (xs + [x])[1..] == xs[1..] + [x];
      JoinAppend(xs[1..], x);
    } else {
      assert (xs + [x])[1..] == [x];
    }
  }

  /** A list read from a setting is printed as itself, never as the fallback, and reads
      back as the same list. */
  lemma RoundTrip(value: string, fallback: string)
    requires Parse(value) != []
    ensures HeaderValue(Parse(value), fallback) == Join(Parse(value))
    ensures Parse(HeaderValue(Parse(value), fallback)) == Parse(value)
  {
    var xs := Parse(value);
    ParseImage(xs);
    CleanJoinParses(xs, "");
    assert "" + Join(xs) == Join(xs);
    assert Clean(xs[0]);
  }
}
