/** Text as the bot stores and reads it: Python's `str.split` and `str.join`,
    the ";\n"-joined member lists of groups and reports, `str.title()`,
    `int()`, decimal rendering, string ordering, and the callback data of the
    report keyboard. */
module Text {
  import opened Wrappers

  // ---------------------------------------------------------------------------
  // str.split / str.join
  // ---------------------------------------------------------------------------

  /** `sep` occurs in `s` starting at index `i`. */
  predicate OccursAt(s: string, sep: string, i: nat) {
    i + |sep| <= |s| && s[i..i + |sep|] == sep
  }

  /** `sep in s`, Python's substring test. */
  predicate Contains(s: string, sep: string) {
    exists i: nat :: i <= |s| && OccursAt(s, sep, i)
  }

  /** A separator whose first character does not recur in it (";\n" and
      every one-character separator): an occurrence of it can then never
      start inside a piece and end inside the separator that follows. */
  predicate GoodSep(sep: string) {
    |sep| > 0 && sep[0] !in sep[1..]
  }

  /** A text shorter than the separator cannot contain it. */
  lemma ShortNoContains(s: string, sep: string)
    requires |s| < |sep|
    ensures !Contains(s, sep)
  {
    forall i: nat | i <= |s| ensures !OccursAt(s, sep, i) {
    }
  }

  /** An occurrence in `[c] + y` starts at 0 or lies inside `y`. */
  lemma ContainsCons(c: char, y: string, sep: string)
    ensures Contains([c] + y, sep) ==> OccursAt([c] + y, sep, 0) || Contains(y, sep)
  {
    if Contains([c] + y, sep) {
      var i: nat :| i <= |[c] + y| && OccursAt([c] + y, sep, i);
      if i > 0 {
        assert ([c] + y)[i..i + |sep|] == y[i - 1..i - 1 + |sep|];
        assert OccursAt(y, sep, i - 1);
      }
    }
  }

  /** An occurrence in the tail of `x` is an occurrence in `x`. */
  lemma ContainsTail(x: string, sep: string)
    requires |x| > 0
    ensures Contains(x[1..], sep) ==> Contains(x, sep)
  {
    if Contains(x[1..], sep) {
      var i: nat :| i <= |x[1..]| && OccursAt(x[1..], sep, i);
      assert x[i + 1..i + 1 + |sep|] == x[1..][i..i + |sep|];
      assert OccursAt(x, sep, i + 1);
    }
  }

  /** `s.split(sep)`: cut at every leftmost, non-overlapping occurrence of
      `sep`. There is always at least one piece, and the first piece is a
      prefix of `s`. */
  function Split(s: string, sep: string): (r: seq<string>)
    requires |sep| > 0
    ensures |r| >= 1 && r[0] <= s
    decreases |s|
  {
    if |s| < |sep| then [s]
    else if s[..|sep|] == sep then [""] + Split(s[|sep|..], sep)
    else
      var rest := Split(s[1..], sep);
      [[s[0]] + rest[0]] + rest[1..]
  }

  /** `sep.join(xs)`. */
  function Join(xs: seq<string>, sep: string): string
    decreases |xs|
  {
    if |xs| == 0 then ""
    else if |xs| == 1 then xs[0]
    else xs[0] + sep + Join(xs[1..], sep)
  }

  /** Joining one more piece adds the separator and the piece. */
  lemma {:induction false} JoinSnoc(xs: seq<string>, x: string, sep: string)
    requires xs != []
    ensures Join(xs + [x], sep) == Join(xs, sep) + sep + x
    decreases |xs|
  {
    if |xs| == 1 {
      assert (xs + [x])[1..] == [x];
    } else {
      JoinSnoc(xs[1..], x, sep);
      assert (xs + [x])[1..] == xs[1..] + [x];
    }
  }

  /** An empty first piece contributes only its separator. */
  lemma JoinEmptyHead(rest: seq<string>, sep: string)
    requires rest != []
    ensures Join([""] + rest, sep) == sep + Join(rest, sep)
  {
    assert ([""] + rest)[1..] == rest;
  }

  /** Growing the first piece by a character grows the join by it. */
  lemma JoinConsChar(c: char, rest: seq<string>, sep: string)
    requires rest != []
    ensures Join([[c] + rest[0]] + rest[1..], sep) == [c] + Join(rest, sep)
  {
    var first := [c] + rest[0];
    if |rest| > 1 {
      assert ([first] + rest[1..])[1..] == rest[1..];
      assert first + sep + Join(rest[1..], sep) == [c] + (rest[0] + sep + Join(rest[1..], sep));
    }
  }

  /** Joining the pieces of a split gives the text back. */
  lemma {:induction false} JoinSplit(s: string, sep: string)
    requires |sep| > 0
    ensures Join(Split(s, sep), sep) == s
    decreases |s|
  {
    if |s| < |sep| {
    } else if s[..|sep|] == sep {
      JoinSplit(s[|sep|..], sep);
      JoinEmptyHead(Split(s[|sep|..], sep), sep);
      assert s == s[..|sep|] + s[|sep|..];
    } else {
      JoinSplit(s[1..], sep);
      JoinConsChar(s[0], Split(s[1..], sep), sep);
      assert s == [s[0]] + s[1..];
    }
  }

  /** Split is empty-text-only: its single piece is "" exactly when the
      text is "" (the source's `split(...) == [""]` test). */
  lemma SplitIsEmptyPiece(s: string, sep: string)
    requires |sep| > 0
    ensures Split(s, sep) == [""] <==> s == ""
  {
    if Split(s, sep) == [""] {
      JoinSplit(s, sep);
    }
  }

  /** A piece that contains no separator is not cut. */
  lemma {:induction false} SplitNoSep(x: string, sep: string)
    requires |sep| > 0 && !Contains(x, sep)
    ensures Split(x, sep) == [x]
    decreases |x|
  {
    if |x| >= |sep| {
      assert !OccursAt(x, sep, 0);
      assert x[..|sep|] != sep;
      ContainsTail(x, sep);
      SplitNoSep(x[1..], sep);
      assert [x[0]] + x[1..] == x;
    }
  }

  /** A separator-free piece followed by the separator is cut off whole. */
  lemma {:induction false} SplitAppend(x: string, t: string, sep: string)
    requires GoodSep(sep) && !Contains(x, sep)
    ensures Split(x + sep + t, sep) == [x] + Split(t, sep)
    decreases |x|
  {
    var s := x + sep + t;
    if |x| == 0 {
      assert s[..|sep|] == sep;
      assert s[|sep|..] == t;
    } else {
      var x' := x[1..];
      if |x| >= |sep| {
        assert !OccursAt(x, sep, 0);
        assert s[..|sep|] == x[..|sep|];
      } else {
        assert sep[1..][|x| - 1] == sep[|x|];
        assert s[|x|] == sep[0];
        assert s[..|sep|][|x|] != sep[|x|];
      }
      assert s[..|sep|] != sep;
      ContainsTail(x, sep);
      SplitAppend(x', t, sep);
      assert s[1..] == x' + sep + t;
      assert [x[0]] + x' == x;
    }
  }

  /** Splitting a join of separator-free pieces gives the pieces back. */
  lemma {:induction false} SplitJoin(xs: seq<string>, sep: string)
    requires GoodSep(sep) && |xs| >= 1
    requires forall k :: 0 <= k < |xs| ==> !Contains(xs[k], sep)
    ensures Split(Join(xs, sep), sep) == xs
    decreases |xs|
  {
    if |xs| == 1 {
      SplitNoSep(xs[0], sep);
    } else {
      SplitJoin(xs[1..], sep);
      SplitAppend(xs[0], Join(xs[1..], sep), sep);
      assert [xs[0]] + xs[1..] == xs;
    }
  }

  /** No piece of a split contains the separator. */
  lemma {:induction false} SplitPiecesSepFree(s: string, sep: string)
    requires |sep| > 0
    ensures forall k :: 0 <= k < |Split(s, sep)| ==> !Contains(Split(s, sep)[k], sep)
    decreases |s|
  {
    if |s| < |sep| {
      ShortNoContains(s, sep);
    } else if s[..|sep|] == sep {
      SplitPiecesSepFree(s[|sep|..], sep);
      var rest := Split(s[|sep|..], sep);
      assert Split(s, sep) == [""] + rest;
      ShortNoContains("", sep);
      forall k | 0 <= k < |Split(s, sep)| ensures !Contains(Split(s, sep)[k], sep) {
        if k > 0 {
          assert Split(s, sep)[k] == rest[k - 1];
        }
      }
    } else {
      SplitPiecesSepFree(s[1..], sep);
      var rest := Split(s[1..], sep);
      var first := [s[0]] + rest[0];
      assert Split(s, sep) == [first] + rest[1..];
      if |first| >= |sep| {
        assert first[..|sep|] == s[..|sep|];
      }
      assert !OccursAt(first, sep, 0);
      ContainsCons(s[0], rest[0], sep);
      forall k | 0 <= k < |Split(s, sep)| ensures !Contains(Split(s, sep)[k], sep) {
        if k > 0 {
          assert Split(s, sep)[k] == rest[k];
        }
      }
    }
  }

  // ---------------------------------------------------------------------------
  // Member lists as stored in `groups.members` and `reports.members`
  // ---------------------------------------------------------------------------

  /** The separator of stored member lists. */
  const Sep: string := ";\n"

  /** The names a stored member list holds; "" holds none. Equal to
      `stored.split(";\n")` except that "" gives [] rather than [""]. */
  function Members(stored: string): seq<string> {
    if stored == "" then [] else Split(stored, Sep)
  }

  /** The stored form of a list of names, `";\n".join(names)`. */
  function Store(names: seq<string>): string {
    Join(names, Sep)
  }

  /** A name that can be stored in a member list without being cut. */
  predicate Storable(name: string) {
    !Contains(name, Sep)
  }

  /** Members undoes Store for separator-free names (the list [""] is the
      one list of such names that Store cannot tell from []). */
  lemma MembersStore(names: seq<string>)
    requires forall k :: 0 <= k < |names| ==> Storable(names[k])
    requires names != [""]
    ensures Members(Store(names)) == names
  {
    assert GoodSep(Sep);
    if |names| == 1 {
      SplitNoSep(names[0], Sep);
    } else if |names| >= 2 {
      assert Store(names) == names[0] + Sep + Join(names[1..], Sep);
      assert |Store(names)| >= 2;
    }
    if |names| >= 1 {
      SplitJoin(names, Sep);
    }
  }

  /** Store undoes Members for every stored text. */
  lemma StoreMembers(stored: string)
    ensures Store(Members(stored)) == stored
  {
    if stored != "" {
      JoinSplit(stored, Sep);
    }
  }

  /** Names read back from a stored list never contain the separator. */
  lemma MembersStorable(stored: string)
    ensures forall k :: 0 <= k < |Members(stored)| ==> Storable(Members(stored)[k])
  {
    if stored != "" {
      SplitPiecesSepFree(stored, Sep);
    }
  }

  /** `stored.split(";\n")` as the handlers call it, without the "" case. */
  lemma RawSplit(stored: string)
    ensures Split(stored, Sep) == if stored == "" then [""] else Members(stored)
  {
  }

  // ---------------------------------------------------------------------------
  // str.title()
  // ---------------------------------------------------------------------------

  predicate IsUpper(c: char) {
    ('A' <= c <= 'Z') || ('А' <= c <= 'Я') || c == 'Ё'
  }

  predicate IsLower(c: char) {
    ('a' <= c <= 'z') || ('а' <= c <= 'я') || c == 'ё'
  }

  /** A character that has a case. */
  predicate IsCased(c: char) {
    IsUpper(c) || IsLower(c)
  }

  function ToUpper(c: char): (r: char)
    ensures IsCased(c) ==> IsUpper(r)
    ensures !IsCased(c) ==> r == c
  {
    if ('a' <= c <= 'z') || ('а' <= c <= 'я') then (c as int - 32) as char
    else if c == 'ё' then 'Ё'
    else c
  }

  function ToLower(c: char): (r: char)
    ensures IsCased(c) ==> IsLower(r)
    ensures !IsCased(c) ==> r == c
  {
    if ('A' <= c <= 'Z') || ('А' <= c <= 'Я') then (c as int + 32) as char
    else if c == 'Ё' then 'ё'
    else c
  }

  /** Title-casing of `s` given whether the character before it was cased:
      a cased character is upper-cased after an uncased one and lower-cased
      after a cased one. */
  function TitleFrom(s: string, afterCased: bool): (r: string)
    ensures |r| == |s|
    ensures forall k :: 0 <= k < |s| ==> (IsCased(r[k]) <==> IsCased(s[k]))
  {
    if s == [] then []
    else if IsCased(s[0]) then
      [if afterCased then ToLower(s[0]) else ToUpper(s[0])] + TitleFrom(s[1..], true)
    else
      [s[0]] + TitleFrom(s[1..], false)
  }

  /** `s.title()` over Latin and basic Cyrillic letters; every other
      character is left as it is and counts as uncased. */
  function Title(s: string): string {
    TitleFrom(s, false)
  }

  lemma {:induction false} TitleFromIdempotent(s: string, afterCased: bool)
    ensures TitleFrom(TitleFrom(s, afterCased), afterCased) == TitleFrom(s, afterCased)
  {
    if s != [] {
      TitleFromIdempotent(s[1..], IsCased(s[0]));
      var t := TitleFrom(s, afterCased);
      assert t[1..] == TitleFrom(s[1..], IsCased(s[0]));
    }
  }

  /** Title-casing twice is title-casing once, so a name the bot stored
      (always title-cased) is a fixed point of Title. */
  lemma TitleIdempotent(s: string)
    ensures Title(Title(s)) == Title(s)
    ensures |Title(s)| == |s|
  {
    TitleFromIdempotent(s, false);
  }

  // ---------------------------------------------------------------------------
  // int() and decimal rendering
  // ---------------------------------------------------------------------------

  predicate IsDigit(c: char) {
    '0' <= c <= '9'
  }

  predicate AllDigits(s: string) {
    forall k :: 0 <= k < |s| ==> IsDigit(s[k])
  }

  /** The value of a run of decimal digits. */
  function DigitsValue(s: string): nat
    requires AllDigits(s)
  {
    if s == [] then 0
    else DigitsValue(s[..|s| - 1]) * 10 + (s[|s| - 1] as int - '0' as int)
  }

  /** Python's `int(s)` taken strictly: an optional sign and one or more
      ASCII digits; anything else is a `ValueError`, here `None`. */
  function ParseInt(s: string): (r: Option<int>)
    ensures r.Some? ==> |s| > 0
  {
    if |s| > 0 && (s[0] == '+' || s[0] == '-') then
      if |s| > 1 && AllDigits(s[1..]) then
        var v: int := DigitsValue(s[1..]);
        Some(if s[0] == '-' then -v else v)
      else None
    else if |s| > 0 && AllDigits(s) then Some(DigitsValue(s))
    else None
  }

  /** `str(n)` for a natural number. */
  function NatToString(n: nat): (r: string)
    ensures |r| > 0 && AllDigits(r)
  {
    if n < 10 then [('0' as int + n) as char]
    else NatToString(n / 10) + [('0' as int + n % 10) as char]
  }

  /** `str(i)` for an integer. */
  function IntToString(i: int): string {
    if i < 0 then "-" + NatToString(-i) else NatToString(i)
  }

  lemma {:induction false} DigitsOfNat(n: nat)
    ensures DigitsValue(NatToString(n)) == n
  {
    if n >= 10 {
      DigitsOfNat(n / 10);
      var s := NatToString(n);
      assert s[..|s| - 1] == NatToString(n / 10);
    }
  }

  /** `int(str(i)) == i`: the decimal rendering of every integer parses
      back to it. */
  lemma ParseIntToString(i: int)
    ensures ParseInt(IntToString(i)) == Some(i)
  {
    if i < 0 {
      DigitsOfNat(-i);
      assert IntToString(i)[1..] == NatToString(-i);
    } else {
      DigitsOfNat(i);
    }
  }

  // ---------------------------------------------------------------------------
  // String order (Python compares strings by code point) and list.sort()
  // ---------------------------------------------------------------------------

  /** `a <= b` on Python strings. */
  predicate LexLe(a: string, b: string)
    decreases |a|
  {
    |a| == 0 || (|b| > 0 && (a[0] < b[0] || (a[0] == b[0] && LexLe(a[1..], b[1..]))))
  }

  lemma {:induction false} LexLeTotal(a: string, b: string)
    ensures LexLe(a, b) || LexLe(b, a)
    decreases |a|
  {
    if |a| > 0 && |b| > 0 && a[0] == b[0] {
      LexLeTotal(a[1..], b[1..]);
    }
  }

  predicate SortedNames(xs: seq<string>) {
    forall k :: 0 <= k < |xs| - 1 ==> LexLe(xs[k], xs[k + 1])
  }

  lemma SortedTail(xs: seq<string>)
    requires SortedNames(xs) && |xs| > 0
    ensures SortedNames(xs[1..])
  {
    forall k | 0 <= k < |xs[1..]| - 1 ensures LexLe(xs[1..][k], xs[1..][k + 1]) {
      assert xs[1..][k] == xs[k + 1] && xs[1..][k + 1] == xs[k + 2];
    }
  }

  /** Insert `x` into a sorted list after every name not above it. */
  function InsertName(x: string, xs: seq<string>): (r: seq<string>)
    requires SortedNames(xs)
    ensures SortedNames(r)
    ensures multiset(r) == multiset(xs) + multiset{x}
    ensures |r| == |xs| + 1 && (r[0] == x || (|xs| > 0 && r[0] == xs[0]))
  {
    if xs == [] then [x]
    else if LexLe(x, xs[0]) then [x] + xs
    else
      LexLeTotal(x, xs[0]);
      assert xs == [xs[0]] + xs[1..];
      SortedTail(xs);
      [xs[0]] + InsertName(x, xs[1..])
  }

  /** `sorted(xs)`: the names in non-decreasing order, the same names as
      many times each. */
  function SortNames(xs: seq<string>): (r: seq<string>)
    ensures SortedNames(r)
    ensures multiset(r) == multiset(xs)
  {
    if xs == [] then []
    else
      assert xs == xs[..|xs| - 1] + [xs[|xs| - 1]];
      InsertName(xs[|xs| - 1], SortNames(xs[..|xs| - 1]))
  }

  // ---------------------------------------------------------------------------
  // Callback data of the report keyboard
  // ---------------------------------------------------------------------------

  /** A member button carries "r_" followed by the member's name. */
  function EncodeButton(name: string): string {
    "r_" + name
  }

  /** The callback data of the "send report" button. */
  const SendButton: string := "r_Отправить"

  /** `data.split("_")[1].title()`; data without "_" raises `IndexError`,
      here `None`. */
  function DecodeButton(data: string): Option<string> {
    var parts := Split(data, "_");
    if |parts| < 2 then None else Some(Title(parts[1]))
  }

  /** Decoding a member button gives the member back when the name is
      title-cased and holds no "_". */
  lemma ButtonRoundTrip(name: string)
    requires !Contains(name, "_") && Title(name) == name
    ensures DecodeButton(EncodeButton(name)) == Some(name)
  {
    assert EncodeButton(name) == "r" + "_" + name;
    ContainsCons('r', "", "_");
    ShortNoContains("", "_");
    assert "r"[0..1] == "r" && "r" != "_";
    assert "r" == ['r'] + "";
    SplitAppend("r", name, "_");
    SplitNoSep(name, "_");
  }
}
