/** The dependency annotations of a method's doc comment: which tag is
    active, and which names a comment line declares after it. */
module DocTags {
  import opened Wrappers
  import opened Php

  /** The notation a resolver starts with. */
  const DefaultNotation: string := "depends"

  /** The tag searched for: '@' and the notation, or "@depends" when the
      notation is unset or PHP-false ("" or "0"). */
  function Tag(notation: Option<string>): (tag: string)
    ensures |tag| > 1 && tag[0] == '@'
    ensures notation.Some? && !IsFalsyString(notation.value) ==> tag[1..] == notation.value
    ensures notation.None? || IsFalsyString(notation.value) ==> tag[1..] == DefaultNotation
  {
    if notation.Some? && !IsFalsyString(notation.value) then "@" + notation.value else "@" + DefaultNotation
  }

  /** The characters of the pattern's class `[,;(; )(, )]`: comma, semicolon,
      both parentheses and space. A tab is not one of them. */
  predicate IsSeparator(c: char) {
    c == ',' || c == ';' || c == '(' || c == ')' || c == ' '
  }

  /** The characters of `s` that are not separators, in order. */
  function NonSeparators(s: string): string
    decreases |s|
  {
    if s == [] then [] else (if IsSeparator(s[0]) then [] else [s[0]]) + NonSeparators(s[1..])
  }

  /** `s` without its leading run of separators. */
  function SkipSeparators(s: string): (t: string)
    ensures |t| <= |s| && t == s[|s| - |t|..]
    ensures t == [] || !IsSeparator(t[0])
    ensures NonSeparators(t) == NonSeparators(s)
    decreases |s|
  {
    if s != [] && IsSeparator(s[0]) then SkipSeparators(s[1..]) else s
  }

  /** `preg_replace("/[,;(; )(, )]+/", " ", s)`: every run of separators
      becomes a single space; everything else is kept in order. */
  function CollapseSeparators(s: string): (r: string)
    ensures forall c :: c in r ==> c == ' ' || !IsSeparator(c)
    ensures NoDoubled(r, ' ')
    ensures s != [] ==> r != [] && r[0] == (if IsSeparator(s[0]) then ' ' else s[0])
    ensures NonSeparators(r) == NonSeparators(s)
    decreases |s|
  {
    if s == [] then []
    else if IsSeparator(s[0]) then
      var rest := CollapseSeparators(SkipSeparators(s[1..]));
      assert ([' '] + rest)[1..] == rest;
      [' '] + rest
    else
      var rest := CollapseSeparators(s[1..]);
      assert ([s[0]] + rest)[1..] == rest;
      [s[0]] + rest
  }

  /** The tail of a string in collapsed form is in collapsed form, and
      after a separator it starts with a kept character. */
  lemma {:induction false} CollapsedTail(s: string)
    requires s != []
    requires forall c :: c in s ==> c == ' ' || !IsSeparator(c)
    requires NoDoubled(s, ' ')
    ensures forall c :: c in s[1..] ==> c == ' ' || !IsSeparator(c)
    ensures NoDoubled(s[1..], ' ')
    ensures IsSeparator(s[0]) ==> SkipSeparators(s[1..]) == s[1..]
  {
    var t := s[1..];
    assert forall c :: c in t ==> c in s;
    if IsSeparator(s[0]) && t != [] {
      assert t[0] == s[1] && t[0] in s;
    }
  }

  /** A string whose only separators are single spaces is left as it is. */
  lemma {:induction false} CollapseFixedPoint(s: string)
    requires forall c :: c in s ==> c == ' ' || !IsSeparator(c)
    requires NoDoubled(s, ' ')
    ensures CollapseSeparators(s) == s
    decreases |s|
  {
    if s != [] {
      var x := s[0];
      var rest := s[1..];
      assert s == [x] + rest;
      assert x in s;
      CollapsedTail(s);
      CollapseFixedPoint(rest);
      CollapseCons(x, rest);
    }
  }

  /** A string with no separator at all is left as it is. */
  lemma {:induction false} SeparatorFreeFixed(s: string)
    requires forall c :: c in s ==> !IsSeparator(c)
    ensures CollapseSeparators(s) == s
  {
    assert NoDoubled(s, ' ') by {
      NoDoubledAt(s, ' ');
      forall i | 0 <= i < |s| - 1
        ensures s[i] != ' '
      {
        assert s[i] in s;
      }
    }
    CollapseFixedPoint(s);
  }

  /** Collapsing twice changes nothing more. */
  lemma {:induction false} CollapseIdempotent(s: string)
    ensures CollapseSeparators(CollapseSeparators(s)) == CollapseSeparators(s)
  {
    CollapseFixedPoint(CollapseSeparators(s));
  }

  /** Skipping the separators in front of a part that starts with a kept
      character stops at that part. */
  lemma {:induction false} SkipAppend(x: string, y: string)
    requires y != [] && !IsSeparator(y[0])
    ensures SkipSeparators(x + y) == SkipSeparators(x) + y
    decreases |x|
  {
    if x != [] && IsSeparator(x[0]) {
      assert (x + y)[1..] == x[1..] + y;
      SkipAppend(x[1..], y);
    } else if x == [] {
      assert x + y == y;
    }
  }

  /** A kept character splits the collapse: what is before it and what is
      after it are collapsed on their own. */
  lemma {:induction false} CollapseAroundKept(p: string, c: char, q: string)
    requires !IsSeparator(c)
    ensures CollapseSeparators(p + [c] + q) == CollapseSeparators(p) + [c] + CollapseSeparators(q)
  {
    CollapseCons(c, q);
    CollapseAppend(p, [c] + q);
    SeqAssoc(p, [c], q);
    SeqAssoc(CollapseSeparators(p), [c], CollapseSeparators(q));
  }

  lemma SeqAssoc(a: string, b: string, c: string)
    ensures a + (b + c) == (a + b) + c
  {
  }

  /** One step of the collapse, for a string given by its first character. */
  lemma {:induction false} CollapseCons(x: char, rest: string)
    ensures !IsSeparator(x) ==> CollapseSeparators([x] + rest) == [x] + CollapseSeparators(rest)
    ensures IsSeparator(x) ==> CollapseSeparators([x] + rest) == " " + CollapseSeparators(SkipSeparators(rest))
  {
    assert ([x] + rest)[1..] == rest;
  }

  /** Before a part that starts with a kept character, the collapse works
      on each side separately. */
  lemma {:induction false} CollapseAppend(x: string, y: string)
    requires y != [] && !IsSeparator(y[0])
    ensures CollapseSeparators(x + y) == CollapseSeparators(x) + CollapseSeparators(y)
    decreases |x|
  {
    if x == [] {
      assert x + y == y;
    } else {
      var x0 := x[0];
      var x' := x[1..];
      assert x == [x0] + x';
      assert x + y == [x0] + (x' + y);
      CollapseCons(x0, x' + y);
      CollapseCons(x0, x');
      var head := if IsSeparator(x0) then " " else [x0];
      var tail := if IsSeparator(x0) then SkipSeparators(x') else x';
      if IsSeparator(x0) {
        SkipAppend(x', y);
      }
      CollapseAppend(tail, y);
      SeqAssoc(head, CollapseSeparators(tail), CollapseSeparators(y));
    }
  }

  /** A non-empty run of separators followed by a kept character, or by
      nothing, becomes one space. */
  lemma {:induction false} CollapseRun(run: string, q: string)
    requires run != [] && forall c :: c in run ==> IsSeparator(c)
    requires q == [] || !IsSeparator(q[0])
    ensures CollapseSeparators(run + q) == " " + CollapseSeparators(q)
  {
    var s := run + q;
    assert s[0] == run[0];
    assert s[1..] == run[1..] + q;
    SkipRun(run[1..], q);
  }

  lemma {:induction false} SkipRun(run: string, q: string)
    requires forall c :: c in run ==> IsSeparator(c)
    requires q == [] || !IsSeparator(q[0])
    ensures SkipSeparators(run + q) == q
    decreases |run|
  {
    if run == [] {
      assert run + q == q;
    } else {
      assert (run + q)[0] == run[0];
      assert (run + q)[1..] == run[1..] + q;
      SkipRun(run[1..], q);
    }
  }

  /** Names with no separator in them, listed with ", " between them,
      collapse to the same names with single spaces between them. */
  lemma {:induction false} CollapseJoin(names: seq<string>)
    requires |names| >= 1
    requires forall k :: 0 <= k < |names| ==> names[k] != []
    requires forall k, c :: 0 <= k < |names| && c in names[k] ==> !IsSeparator(c)
    ensures CollapseSeparators(Join(names, ", ")) == Join(names, " ")
    decreases |names|
  {
    var n := names[0];
    forall i | 0 <= i < |n|
      ensures !IsSeparator(n[i])
    {
      assert n[i] in names[0];
    }
    if |names| == 1 {
      KeptPrefix(n, []);
      assert n + [] == n;
    } else {
      var tail := names[1..];
      var rest := Join(tail, ", ");
      var spaced := Join(tail, " ");
      JoinShape(tail, ", ");
      assert rest[0] == names[1][0] && names[1][0] in names[1];
      CollapseRun(", ", rest);
      KeptPrefix(n, ", " + rest);
      CollapseJoin(tail);
      SeqAssoc(n, ", ", rest);
      SeqAssoc(n, " ", spaced);
    }
  }

  /** A name a tag line can declare and get back whole: non-empty, with no
      separator and no '@', and no white space at either end. */
  predicate DeclarableName(n: string) {
    && n != []
    && '@' !in n
    && (forall c :: c in n ==> !IsSeparator(c))
    && !IsTrimmable(n[0]) && !IsTrimmable(n[|n| - 1])
  }

  /** When `pre` has no '@' and `tag` starts with one, the tag's first
      occurrence in `pre + tag + rest` is right after `pre`, and `explode`
      hands over `rest` when `rest` has no '@' either. */
  lemma {:induction false} TagAfterPrefix(pre: string, tag: string, rest: string)
    requires |tag| > 0 && tag[0] == '@' && '@' !in pre && '@' !in rest
    ensures Explode(tag, pre + tag + rest) == [pre, rest]
  {
    var line := pre + tag + rest;
    forall j: nat | j < |pre|
      ensures !OccursAt(line, tag, j)
    {
      assert line[j] == pre[j] && pre[j] in pre;
      if j + |tag| <= |line| {
        assert line[j..j + |tag|][0] == line[j];
      }
    }
    assert line[|pre|..|pre| + |tag|] == tag;
    assert OccursAt(line, tag, |pre|);
    var v := IndexOf(line, tag).value;
    assert !(v < |pre|);
    assert !(|pre| < v);
    assert line[..|pre|] == pre;
    assert line[|pre| + |tag|..] == rest;
    forall i: nat
      ensures !OccursAt(rest, tag, i)
    {
      if i + |tag| <= |rest| {
        assert rest[i..i + |tag|][0] == rest[i] && rest[i] in rest;
      }
    }
  }

  /** Names listed with ", " after a space come out of the collapse and
      the trim with single spaces between them. */
  lemma {:induction false} ListedNamesSpaced(names: seq<string>)
    requires |names| >= 1 && forall k :: 0 <= k < |names| ==> DeclarableName(names[k])
    ensures Trim(CollapseSeparators(" " + Join(names, ", "))) == Join(names, " ")
  {
    var listed := Join(names, ", ");
    var spaced := Join(names, " ");
    JoinShape(names, ", ");
    CollapseRun(" ", listed);
    CollapseJoin(names);
    JoinShape(names, " ");
    TrimOfPadded(" ", spaced);
  }

  /** A tag followed by a space and names listed with ", " declares exactly
      those names, in order. */
  lemma {:induction false} LineNamesRoundTrip(pre: string, tag: string, names: seq<string>)
    requires |tag| > 0 && tag[0] == '@' && '@' !in pre
    requires |names| >= 1 && forall k :: 0 <= k < |names| ==> DeclarableName(names[k])
    ensures LineNames(pre + tag + " " + Join(names, ", "), tag) == names
  {
    var rest := " " + Join(names, ", ");
    var line := pre + tag + rest;
    assert line == pre + tag + " " + Join(names, ", ");
    NoAtInListed(names);
    TagAfterPrefix(pre, tag, rest);
    ListedNamesSpaced(names);
    assert LineNames(line, tag) == Explode(" ", Join(names, " "));
    forall k | 0 <= k < |names|
      ensures ' ' !in names[k]
    {
      assert DeclarableName(names[k]);
    }
    ExplodeJoin(' ', names);
  }

  /** Declarable names listed with ", " after a space hold no '@'. */
  lemma {:induction false} NoAtInListed(names: seq<string>)
    requires |names| >= 1 && forall k :: 0 <= k < |names| ==> DeclarableName(names[k])
    ensures '@' !in " " + Join(names, ", ")
  {
    forall c | c in Join(names, ", ")
      ensures c != '@'
    {
      JoinChars(names, ", ", c);
    }
  }

  /** A tab is not a separator: after ",\t" the tab stays at the head of
      the next name instead of being dropped. */
  lemma {:induction false} TabAfterCommaKept(pre: string, tag: string, a: string, b: string)
    requires |tag| > 0 && tag[0] == '@' && '@' !in pre
    requires DeclarableName(a) && DeclarableName(b)
    ensures LineNames(pre + tag + " " + a + ",\t" + b, tag) == [a, "\t" + b]
  {
    var front := pre + tag;
    var spacedA := " " + a;
    var rest := spacedA + ",\t" + b;
    SeqAssoc(front, " ", a);
    SeqAssoc(front, spacedA, ",\t");
    SeqAssoc(front, spacedA + ",\t", b);
    TabbedPieces(a, b);
    TagAfterPrefix(pre, tag, rest);
    TabCollapse(a, b);
    ExplodeJoin(' ', [a, "\t" + b]);
  }

  /** The facts about the two names around ",\t" that the line needs: no
      '@' anywhere, no space in either piece, and their join with a space. */
  lemma {:induction false} TabbedPieces(a: string, b: string)
    requires DeclarableName(a) && DeclarableName(b)
    ensures '@' !in " " + a + ",\t" + b
    ensures forall k :: 0 <= k < |[a, "\t" + b]| ==> ' ' !in [a, "\t" + b][k]
    ensures Join([a, "\t" + b], " ") == a + " " + ("\t" + b)
  {
    var parts := [a, "\t" + b];
    assert parts[1..] == ["\t" + b];
  }

  /** The collapse turns ",\t" into " \t", and the trim keeps that tab. */
  lemma {:induction false} TabCollapse(a: string, b: string)
    requires DeclarableName(a) && DeclarableName(b)
    ensures Trim(CollapseSeparators(" " + a + ",\t" + b)) == a + " " + ("\t" + b)
  {
    forall i | 0 <= i < |a|
      ensures !IsSeparator(a[i])
    {
      assert a[i] in a;
    }
    forall i | 0 <= i < |b|
      ensures !IsSeparator(b[i])
    {
      assert b[i] in b;
    }
    var collapsed := a + " " + ("\t" + b);
    TabCollapseSpaced(a, b);
    assert collapsed[0] == a[0];
    assert collapsed[|collapsed| - 1] == b[|b| - 1];
    TrimOfPadded(" ", collapsed);
  }

  lemma {:induction false} TabCollapseSpaced(a: string, b: string)
    requires a != [] && forall i :: 0 <= i < |a| ==> !IsSeparator(a[i])
    requires forall i :: 0 <= i < |b| ==> !IsSeparator(b[i])
    ensures CollapseSeparators(" " + a + ",\t" + b) == " " + (a + " " + ("\t" + b))
  {
    var x := ",\t" + b;
    var z := "\t" + b;
    CommaTabCollapse(b);
    KeptPrefix(a, x);
    assert (a + x)[0] == a[0];
    CollapseRun(" ", a + x);
    SeqAssoc(" " + a, ",\t", b);
    SeqAssoc(" ", a, x);
    SeqAssoc(a, " ", z);
  }

  /** ",\t" before a name becomes " \t". */
  lemma {:induction false} CommaTabCollapse(b: string)
    requires forall i :: 0 <= i < |b| ==> !IsSeparator(b[i])
    ensures CollapseSeparators(",\t" + b) == " " + ("\t" + b)
  {
    var z := "\t" + b;
    CommaBeforeTab(b);
    TabKept(b);
    CollapseCons(',', z);
  }

  lemma CommaBeforeTab(b: string)
    ensures ",\t" + b == [','] + ("\t" + b)
  {
  }

  /** A tab in front of a separator-free name is kept with it. */
  lemma {:induction false} TabKept(b: string)
    requires forall i :: 0 <= i < |b| ==> !IsSeparator(b[i])
    ensures SkipSeparators("\t" + b) == "\t" + b
    ensures CollapseSeparators("\t" + b) == "\t" + b
  {
    TabFirst(b);
    SeparatorFreeKept(b);
    CollapseCons('\t', b);
  }

  lemma TabFirst(b: string)
    ensures ("\t" + b)[0] == '\t'
  {
  }

  /** A string with no separator, given by its indices, is left as it is. */
  lemma {:induction false} SeparatorFreeKept(b: string)
    requires forall i :: 0 <= i < |b| ==> !IsSeparator(b[i])
    ensures CollapseSeparators(b) == b
  {
    KeptPrefix(b, []);
    assert b + [] == b;
  }

  /** A part with no separator in front of the rest is kept as it is. */
  lemma {:induction false} KeptPrefix(a: string, t: string)
    requires forall i :: 0 <= i < |a| ==> !IsSeparator(a[i])
    ensures CollapseSeparators(a + t) == a + CollapseSeparators(t)
    decreases |a|
  {
    if a == [] {
      assert a + t == t;
    } else {
      var a0 := a[0];
      var a' := a[1..];
      assert a == [a0] + a';
      SeqAssoc([a0], a', t);
      CollapseCons(a0, a' + t);
      KeptPrefix(a', t);
      SeqAssoc([a0], a', CollapseSeparators(t));
    }
  }

  /** The text after the first occurrence of the tag, up to a second one. */
  function TextAfterTag(line: string, tag: string): (t: string)
    requires |tag| > 0 && Contains(line, tag)
  {
    var i := IndexOf(line, tag).value;
    var rest := line[i + |tag|..];
    match IndexOf(rest, tag)
    case None => rest
    case Some(j) => rest[..j]
  }

  /** The names one doc-comment line declares: none when the line lacks the
      tag; otherwise the second piece of `explode($tag, $line)`, separators
      collapsed, trimmed and split at spaces. */
  function LineNames(line: string, tag: string): (names: seq<string>)
    requires |tag| > 0
    ensures names != [] <==> Contains(line, tag)
  {
    var parts := Explode(tag, line);
    if |parts| > 1 then Explode(" ", Trim(CollapseSeparators(parts[1]))) else []
  }

  /** The piece `explode` hands over is exactly the text after the first tag
      and before any second one. */
  lemma {:induction false} LineNamesAfterFirstTag(line: string, tag: string)
    requires |tag| > 0 && Contains(line, tag)
    ensures LineNames(line, tag) == Explode(" ", Trim(CollapseSeparators(TextAfterTag(line, tag))))
  {
    var i := IndexOf(line, tag).value;
    var rest := line[i + |tag|..];
    assert Explode(tag, line)[1] == Explode(tag, rest)[0];
  }

  /** `NonSeparators` keeps exactly the characters of `s` that are not
      separators. */
  lemma {:induction false} NonSeparatorsChars(s: string, c: char)
    ensures c in NonSeparators(s) <==> c in s && !IsSeparator(c)
    decreases |s|
  {
    if s != [] {
      NonSeparatorsChars(s[1..], c);
      assert s == [s[0]] + s[1..];
    }
  }

  /** A string is all separators and white space exactly when the
      characters it keeps are all white space. */
  lemma {:induction false} BlankByKept(s: string)
    ensures (forall c :: c in s ==> IsSeparator(c) || IsTrimmable(c)) <==>
            (forall c :: c in NonSeparators(s) ==> IsTrimmable(c))
  {
    forall c
      ensures c in NonSeparators(s) <==> c in s && !IsSeparator(c)
    {
      NonSeparatorsChars(s, c);
    }
  }

  /** The collapse of a string is all white space exactly when the string
      is all separators and white space. */
  lemma {:induction false} BlankCollapse(t: string)
    ensures (forall c :: c in t ==> IsSeparator(c) || IsTrimmable(c)) ==>
            (forall k :: 0 <= k < |CollapseSeparators(t)| ==> IsTrimmable(CollapseSeparators(t)[k]))
    ensures (forall k :: 0 <= k < |CollapseSeparators(t)| ==> IsTrimmable(CollapseSeparators(t)[k])) ==>
            (forall c :: c in t ==> IsSeparator(c) || IsTrimmable(c))
  {
    var r := CollapseSeparators(t);
    BlankByKept(t);
    BlankByKept(r);
    if forall k :: 0 <= k < |r| ==> IsTrimmable(r[k]) {
      forall c | c in r
        ensures IsSeparator(c) || IsTrimmable(c)
      {
        var k :| 0 <= k < |r| && r[k] == c;
      }
      assert forall c :: c in NonSeparators(r) ==> IsTrimmable(c);
      assert NonSeparators(r) == NonSeparators(t);
    } else {
      var k :| 0 <= k < |r| && !IsTrimmable(r[k]);
      var c := r[k];
      assert c in r;
      NonSeparatorsChars(r, c);
      NonSeparatorsChars(t, c);
    }
  }

  /** Splitting at spaces gives the single empty piece only for the empty
      string. */
  lemma {:induction false} ExplodeSpaceEmpty(x: string)
    ensures Explode(" ", x) == [""] <==> x == []
  {
    if x == [] {
      assert IndexOf(x, " ") == None;
    } else if Explode(" ", x) == [""] {
      JoinExplode(" ", x);
    }
  }

  /** A tagged line yields the single empty name exactly when everything
      between the first tag and any second one is separators and white
      space; otherwise no name it yields is empty. */
  lemma {:induction false} LineNamesEmptyName(line: string, tag: string)
    requires |tag| > 0 && Contains(line, tag)
    ensures LineNames(line, tag) == [""] <==>
            forall c :: c in TextAfterTag(line, tag) ==> IsSeparator(c) || IsTrimmable(c)
  {
    var t := TextAfterTag(line, tag);
    LineNamesAfterFirstTag(line, tag);
    ExplodeSpaceEmpty(Trim(CollapseSeparators(t)));
    BlankCollapse(t);
  }

  /** A line whose first tag ends it declares one name, the empty one. */
  lemma {:induction false} BareTagLine(line: string, tag: string)
    requires |tag| > 0 && Contains(line, tag)
    requires IndexOf(line, tag).value + |tag| == |line|
    ensures LineNames(line, tag) == [""]
  {
    assert TextAfterTag(line, tag) == [];
    LineNamesEmptyName(line, tag);
  }

  /** A declared name never holds a comma, semicolon, parenthesis or space,
      and an empty name is only ever the single name of its line (when that
      happens is `LineNamesEmptyName`). */
  lemma {:induction false} LineNamesShape(line: string, tag: string)
    requires |tag| > 0
    ensures forall n, c :: n in LineNames(line, tag) && c in n ==> !IsSeparator(c)
    ensures LineNames(line, tag) == [""] || forall n :: n in LineNames(line, tag) ==> n != ""
  {
    var parts := Explode(tag, line);
    if |parts| > 1 {
      var collapsed := CollapseSeparators(parts[1]);
      var s := Trim(collapsed);
      var names := Explode(" ", s);
      assert names == LineNames(line, tag);
      forall k | 0 <= k < |names|
        ensures ' ' !in names[k]
      {
        ContainsChar(names[k], ' ');
      }
      if s == [] {
        assert IndexOf(s, " ") == None;
        assert names == [""];
      } else {
        TrimKeepsNoDoubled(collapsed, ' ');
        ExplodeNoEmptyPieces(' ', s);
      }
    }
  }

  /** The doc-comment line ` * @depends` declares one empty name. */
  lemma {:induction false} BareDependsLine()
    ensures LineNames(" * @depends", "@depends") == [""]
  {
    var line := " * @depends";
    var tag := "@depends";
    assert line[0..|tag|][0] != tag[0] && line[1..1 + |tag|][0] != tag[0] && line[2..2 + |tag|][0] != tag[0];
    assert OccursAt(line, tag, 3);
    assert IndexFrom(line, tag, 3) == Some(3);
    assert IndexFrom(line, tag, 0) == Some(3);
    BareTagLine(line, tag);
  }

  /** The names of all lines, in line order. */
  function LinesNames(lines: seq<string>, tag: string): (names: seq<string>)
    requires |tag| > 0
    ensures names == [] <==> forall k :: 0 <= k < |lines| ==> !Contains(lines[k], tag)
    decreases |lines|
  {
    if lines == [] then []
    else LinesNames(lines[..|lines| - 1], tag) + LineNames(lines[|lines| - 1], tag)
  }

  /** No name gathered from any line holds a separator. */
  lemma {:induction false} LinesNamesHaveNoSeparators(lines: seq<string>, tag: string)
    requires |tag| > 0
    ensures forall n, c :: n in LinesNames(lines, tag) && c in n ==> !IsSeparator(c)
    decreases |lines|
  {
    if lines != [] {
      LinesNamesHaveNoSeparators(lines[..|lines| - 1], tag);
      LineNamesShape(lines[|lines| - 1], tag);
    }
  }

  /** The names a whole doc comment declares: its lines are the pieces of
      `explode("\n", $docBlock)`. */
  function DocNames(doc: string, tag: string): (names: seq<string>)
    requires |tag| > 0
    ensures names == [] ==> forall k :: 0 <= k < |Explode("\n", doc)| ==> !Contains(Explode("\n", doc)[k], tag)
    ensures (forall k :: 0 <= k < |Explode("\n", doc)| ==> !Contains(Explode("\n", doc)[k], tag)) ==> names == []
    ensures forall n, c :: n in names && c in n ==> !IsSeparator(c)
  {
    var lines := Explode("\n", doc);
    LinesNamesHaveNoSeparators(lines, tag);
    LinesNames(lines, tag)
  }

  /** A one-line doc comment whose first tag ends it declares one name,
      the empty one. */
  lemma {:induction false} BareTagComment(doc: string, tag: string)
    requires |tag| > 0 && '\n' !in doc && Contains(doc, tag)
    requires IndexOf(doc, tag).value + |tag| == |doc|
    ensures DocNames(doc, tag) == [""]
  {
    OneLine(doc);
    OneLineNames(doc, tag);
    BareTagLine(doc, tag);
  }

  /** A comment without a newline is a single line. */
  lemma OneLine(doc: string)
    requires '\n' !in doc
    ensures Explode("\n", doc) == [doc]
  {
    ContainsChar(doc, '\n');
    JoinExplode("\n", doc);
  }

  /** The names of a single line are that line's names. */
  lemma OneLineNames(line: string, tag: string)
    requires |tag| > 0
    ensures LinesNames([line], tag) == LineNames(line, tag)
  {
    assert [line][..0] == [];
  }
}
