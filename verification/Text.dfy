/** String operations the sources use: trimming, searching, splitting and joining. */
module Text {
  import opened Options

  // ----- White space -----

  predicate IsSpace(c: char) {
    c == ' ' || '\t' <= c <= '\r' || c == '\U{A0}' || c == '\U{1680}' || '\U{2000}' <= c <= '\U{200A}'
    || c == '\U{2028}' || c == '\U{2029}' || c == '\U{202F}' || c == '\U{205F}' || c == '\U{3000}' || c == '\U{FEFF}'
  }

  predicate AllSpaces(s: string) { forall i :: 0 <= i < |s| ==> IsSpace(s[i]) }

  function TrimStart(s: string): string { if s != [] && IsSpace(s[0]) then TrimStart(s[1..]) else s }

  function TrimEnd(s: string): string {
    if s != [] && IsSpace(s[|s| - 1]) then TrimEnd(s[..|s| - 1]) else s
  }

  function Trim(s: string): string { TrimEnd(TrimStart(s)) }

  predicate Tight(s: string) { s == [] || (!IsSpace(s[0]) && !IsSpace(s[|s| - 1])) }

  lemma {:induction false} TrimStartSplits(s: string) returns (lead: string)
    ensures s == lead + TrimStart(s) && AllSpaces(lead)
    ensures TrimStart(s) == [] || !IsSpace(TrimStart(s)[0])
  {
    lead := [];
    if s != [] && IsSpace(s[0]) {
      lead := TrimStartSplits(s[1..]);
      assert s == [s[0]] + (lead + TrimStart(s[1..]));
      lead := [s[0]] + lead;
    }
  }

  lemma {:induction false} TrimEndSplits(s: string) returns (tail: string)
    requires s == [] || !IsSpace(s[0])
    ensures s == TrimEnd(s) + tail && AllSpaces(tail) && Tight(TrimEnd(s))
    decreases |s|
  {
    tail := [];
    if s != [] && IsSpace(s[|s| - 1]) {
      var n := |s| - 1;
      tail := TrimEndSplits(s[..n]);
      assert s == (TrimEnd(s[..n]) + tail) + [s[n]];
      tail := tail + [s[n]];
    }
  }

  lemma TrimSplits(s: string) returns (lead: string, tail: string)
    ensures s == lead + Trim(s) + tail && AllSpaces(lead) && AllSpaces(tail) && Tight(Trim(s))
  {
    lead := TrimStartSplits(s);
    tail := TrimEndSplits(TrimStart(s));
  }

  lemma TrimTwice(s: string)
    ensures Trim(Trim(s)) == Trim(s)
  {
    var lead, tail := TrimSplits(s);
  }

  lemma {:induction false} TrimStartOver(lead: string, rest: string)
    requires AllSpaces(lead) && rest != [] && !IsSpace(rest[0])
    ensures TrimStart(lead + rest) == rest
  {
    if lead == [] {
      assert lead + rest == rest;
    } else {
      assert (lead + rest)[1..] == lead[1..] + rest;
      TrimStartOver(lead[1..], rest);
    }
  }

  lemma {:induction false} TrimEndOver(rest: string, tail: string)
    requires AllSpaces(tail) && rest != [] && !IsSpace(rest[|rest| - 1])
    ensures TrimEnd(rest + tail) == rest
    decreases |tail|
  {
    if tail == [] {
      assert rest + tail == rest;
    } else {
      var n := |tail| - 1;
      assert (rest + tail)[..|rest| + n] == rest + tail[..n];
      TrimEndOver(rest, tail[..n]);
    }
  }

  /** Only white space around `middle` is trimmed. */
  lemma TrimPads(lead: string, middle: string, tail: string)
    requires AllSpaces(lead) && AllSpaces(tail) && Tight(middle) && middle != []
    ensures Trim(lead + middle + tail) == middle
  {
    var rest := middle + tail;
    assert lead + middle + tail == lead + rest && rest[0] == middle[0];
    TrimStartOver(lead, rest);
    TrimEndOver(middle, tail);
  }

  // ----- Searching -----

  predicate Lacks(s: string, c: char) { forall i :: 0 <= i < |s| ==> s[i] != c }

  predicate Occurs(text: string, m: string, i: int) { 0 <= i <= i + |m| <= |text| && text[i..i + |m|] == m }

  ghost predicate Free(text: string, m: string) { forall i :: !Occurs(text, m, i) }

  function FindFrom(text: string, m: string, start: nat): (r: Option<nat>)
    requires start <= |text|
    ensures r.Some? ==> start <= r.value && Occurs(text, m, r.value)
    ensures forall i :: start <= i && (r.Some? ==> i < r.value) ==> !Occurs(text, m, i)
    decreases |text| - start
  {
    if Occurs(text, m, start) then Some(start)
    else if start == |text| then None
    else FindFrom(text, m, start + 1)
  }

  /** The first occurrence of `m`. */
  function Find(text: string, m: string): (r: Option<nat>)
    ensures r.Some? ==> Occurs(text, m, r.value) && forall i :: i < r.value ==> !Occurs(text, m, i)
    ensures r.None? ==> Free(text, m)
  {
    FindFrom(text, m, 0)
  }

  // ----- Splitting and joining at a character -----

  function Split(text: string, sep: char): (parts: seq<string>)
    ensures parts != []
  {
    if text == [] then [[]]
    else
      var parts := Split(text[..|text| - 1], sep);
      var c := text[|text| - 1];
      if c == sep then parts + [[]] else parts[..|parts| - 1] + [parts[|parts| - 1] + [c]]
  }

  function Join(parts: seq<string>, sep: char): string {
    if parts == [] then []
    else if |parts| == 1 then parts[0]
    else Join(parts[..|parts| - 1], sep) + [sep] + parts[|parts| - 1]
  }

  lemma SplitSeparator(text: string, sep: char)
    ensures Split(text + [sep], sep) == Split(text, sep) + [[]]
  {
    assert (text + [sep])[..|text|] == text;
  }

  /** The parts with `tail` added to the last of them. */
  function Extended(parts: seq<string>, tail: string): seq<string>
    requires parts != []
  {
    parts[..|parts| - 1] + [parts[|parts| - 1] + tail]
  }

  lemma ExtendedTwice(parts: seq<string>, s: string, t: string)
    requires parts != []
    ensures Extended(Extended(parts, s), t) == Extended(parts, s + t)
  {
    var front, last := parts[..|parts| - 1], parts[|parts| - 1];
    var once := Extended(parts, s);
    assert once[..|once| - 1] == front && once[|once| - 1] == last + s;
    assert (last + s) + t == last + (s + t);
  }

  lemma ExtendedByNothing(parts: seq<string>)
    requires parts != []
    ensures Extended(parts, []) == parts
  {
    var front, last := parts[..|parts| - 1], parts[|parts| - 1];
    assert last + [] == last;
    assert front + [last] == parts;
  }

  lemma SplitCharacter(text: string, c: char, sep: char)
    requires c != sep
    ensures Split(text + [c], sep) == Extended(Split(text, sep), [c])
  {
    var longer := text + [c];
    assert longer[..|longer| - 1] == text && longer[|longer| - 1] == c;
  }

  lemma {:induction false} SplitTail(text: string, tail: string, sep: char)
    requires Lacks(tail, sep)
    ensures Split(text + tail, sep) == Extended(Split(text, sep), tail)
  {
    hide Split, Extended;
    if tail == [] {
      assert text + tail == text;
      ExtendedByNothing(Split(text, sep));
    } else {
      var n := |tail| - 1;
      var front := tail[..n];
      SplitTail(text, front, sep);
      SplitCharacter(text + front, tail[n], sep);
      ExtendedTwice(Split(text, sep), front, [tail[n]]);
      assert front + [tail[n]] == tail;
      assert text + front + [tail[n]] == text + tail;
    }
  }

  /** Splitting undoes joining when no part holds the separator. */
  lemma {:induction false} SplitJoin(parts: seq<string>, sep: char)
    requires parts != [] && forall i :: 0 <= i < |parts| ==> Lacks(parts[i], sep)
    ensures Split(Join(parts, sep), sep) == parts
  {
    hide Lacks, Extended;
    var n := |parts| - 1;
    if n == 0 {
      SplitTail([], parts[0], sep);
      assert [] + parts[0] == parts[0];
      OnePart(parts[0]);
      assert parts == [parts[0]];
    } else {
      var front := Join(parts[..n], sep);
      SplitJoin(parts[..n], sep);
      hide Split;
      SplitSeparator(front, sep);
      SplitTail(front + [sep], parts[n], sep);
      LastPart(parts);
    }
  }

  lemma OnePart(part: string)
    ensures Extended([[]], part) == [part]
  {
    assert [] + part == part;
  }

  lemma LastPart(parts: seq<string>)
    requires parts != []
    ensures Extended(parts[..|parts| - 1] + [[]], parts[|parts| - 1]) == parts
  {
    var n := |parts| - 1;
    var padded: seq<string> := parts[..n] + [[]];
    assert padded[..n] == parts[..n] && [] + parts[n] == parts[n];
    assert parts == parts[..n] + [parts[n]];
  }

  lemma {:induction false} JoinFront(first: string, parts: seq<string>, sep: char)
    requires parts != []
    ensures Join([first] + parts, sep) == first + [sep] + Join(parts, sep)
  {
    var n := |parts| - 1;
    var all := [first] + parts;
    assert all[..|all| - 1] == [first] + parts[..n];
    if n > 0 {
      JoinFront(first, parts[..n], sep);
      var front := Join(parts[..n], sep);
      assert first + [sep] + front + [sep] + parts[n] == first + [sep] + (front + [sep] + parts[n]);
    } else {
      assert [first] + parts[..n] == [first];
    }
  }

  lemma JoinBack(parts: seq<string>, last: string, sep: char)
    requires parts != []
    ensures Join(parts + [last], sep) == Join(parts, sep) + [sep] + last
  {
    assert (parts + [last])[..|parts|] == parts;
  }

  // ----- Markers -----

  /** An HTML comment on one line: it opens once, at its start, and holds no cell separator. */
  ghost predicate Marker(m: string) {
    && |m| > 1 && m[0] == '<' && m[|m| - 1] == '>' && (forall i :: 0 < i < |m| ==> m[i] != '<')
    && Lacks(m, '|') && Lacks(m, '\n')
  }

  /** Where an occurrence in a concatenation lies: in one half, or across the seam. */
  lemma OccursShape(a: string, b: string, m: string, i: int)
    requires m != []
    ensures Occurs(a + b, m, i) && i + |m| <= |a| ==> Occurs(a, m, i)
    ensures Occurs(a + b, m, i) && i >= |a| ==> Occurs(b, m, i - |a|)
    ensures Occurs(a + b, m, i) && i < |a| ==> a[i] == m[0]
    ensures Occurs(a + b, m, i) && i < |a| < i + |m| ==> b[0] == m[|a| - i] && b[i + |m| - |a| - 1] == m[|m| - 1]
  {
    if Occurs(a + b, m, i) {
      var text := a + b;
      assert forall k :: 0 <= k < |m| ==> text[i..i + |m|][k] == m[k] == text[i + k];
      if i + |m| <= |a| {
        assert a[i..i + |m|] == m;
      } else if i >= |a| {
        assert b[i - |a|..i - |a| + |m|] == m;
      } else {
        assert text[i + (|a| - i)] == m[|a| - i] && text[i + (|m| - 1)] == m[|m| - 1];
      }
    }
  }

  lemma LacksFree(text: string, m: string)
    requires Marker(m) && Lacks(text, '<')
    ensures Free(text, m)
  {
    assert text + [] == text;
    forall i ensures !Occurs(text, m, i) {
      OccursShape(text, [], m, i);
    }
  }

  /** No marker spans the seam before text that opens like a marker. */
  lemma FreeBeforeOpening(a: string, b: string, m: string)
    requires Marker(m) && Free(a, m) && Free(b, m) && b != [] && b[0] == '<'
    ensures Free(a + b, m)
  {
    forall i ensures !Occurs(a + b, m, i) {
      OccursShape(a, b, m, i);
    }
  }

  /** The first occurrence of a marker after text free of it. */
  lemma FindAfter(a: string, m: string, b: string)
    requires Marker(m) && Free(a, m)
    ensures Find(a + m + b, m) == Some(|a|)
  {
    var text := a + m + b;
    assert text[|a|..|a| + |m|] == m;
    assert text == a + (m + b);
    forall i | i < |a| ensures !Occurs(text, m, i) {
      OccursShape(a, m + b, m, i);
    }
    assert Occurs(text, m, |a|);
  }

  /** No occurrence spans a seam whose next character the marker lacks. */
  lemma FreeSeam(a: string, b: string, m: string)
    requires m != [] && b != [] && Lacks(m, b[0]) && Free(a, m) && Free(b, m)
    ensures Free(a + b, m)
  {
    hide Occurs;
    forall i ensures !Occurs(a + b, m, i) {
      OccursShape(a, b, m, i);
      OccursBounds(a + b, m, i);
    }
  }

  lemma OccursBounds(text: string, m: string, i: int)
    ensures Occurs(text, m, i) ==> 0 <= i <= i + |m| <= |text|
  {
  }

  lemma FreeBehind(sep: char, b: string, m: string)
    requires m != [] && Lacks(m, sep) && Free(b, m)
    ensures Free([sep] + b, m)
  {
    hide Occurs;
    forall i ensures !Occurs([sep] + b, m, i) {
      OccursShape([sep], b, m, i);
      OccursBounds([sep] + b, m, i);
      assert m[0] != sep;
    }
  }

  lemma FreeAround(a: string, sep: char, b: string, m: string)
    requires m != [] && Lacks(m, sep) && Free(a, m) && Free(b, m)
    ensures Free(a + [sep] + b, m)
  {
    hide Free, Lacks;
    FreeBehind(sep, b, m);
    FreeSeam(a, [sep] + b, m);
    assert a + [sep] + b == a + ([sep] + b);
  }

  lemma {:induction false} FreeJoin(parts: seq<string>, sep: char, m: string)
    requires m != [] && Lacks(m, sep) && forall i :: 0 <= i < |parts| ==> Free(parts[i], m)
    ensures Free(Join(parts, sep), m)
  {
    hide Free, Lacks;
    if |parts| > 1 {
      var n := |parts| - 1;
      FreeJoin(parts[..n], sep, m);
      FreeAround(Join(parts[..n], sep), sep, parts[n], m);
    } else if |parts| == 1 {
    } else {
      FreeEmpty(m);
    }
  }

  lemma FreeEmpty(m: string)
    requires m != []
    ensures Free([], m)
  {
  }

  lemma FreePadded(cell: string, m: string)
    requires Marker(m) && Free(cell, m)
    ensures Free([' '] + cell + [' '], m)
  {
    forall i ensures !Occurs([' '] + cell + [' '], m, i) {
      OccursShape([' '] + cell, [' '], m, i);
      OccursShape([' '], cell, m, i);
    }
  }

  // ----- Trimming a padded cell -----

  lemma {:induction false} TrimPadded(cell: string)
    requires Tight(cell)
    ensures Trim([' '] + cell + [' ']) == cell
  {
    var text := [' '] + cell + [' '];
    assert text[1..] == cell + [' '];
    if cell == [] {
      assert TrimStart(text) == TrimStart([' ']) == TrimStart([]);
    } else {
      assert TrimStart(text) == cell + [' '];
      var padded := cell + [' '];
      assert padded[..|padded| - 1] == cell && padded[|padded| - 1] == ' ';
      assert TrimEnd(padded) == TrimEnd(cell) == cell;
    }
  }

  lemma TrimLacks(s: string, c: char)
    requires Lacks(s, c)
    ensures Lacks(Trim(s), c)
  {
    var lead, tail := TrimSplits(s);
    var t := Trim(s);
    forall i | 0 <= i < |t| ensures t[i] != c {
      assert (lead + t + tail)[|lead| + i] == t[i];
    }
  }
}
