/** The parts of the PHP runtime the helpers rely on: the exceptions they
    throw, the loosely typed argument values they inspect, what reflection
    reports about the loaded code, and the string and array built-ins they
    call (`explode`, `trim`, `array_unique`, ordered arrays). */
module Php {
  import opened Wrappers

  /** Exceptions thrown by the modelled code, with the codes it gives them. */
  datatype Exception =
    | InvalidArgumentException(code: int)
    | RuntimeException(code: int)
    | BadMethodCallException(code: int)
      // `new ReflectionMethod($class, $method)` on a method the class does not have
    | MissingMethod(className: string, methodName: string)
      // `new ReflectionClass($name)` on a name that is neither a class nor an interface
    | MissingClass(className: string)

  /** An untyped PHP argument, as far as `isset`, `is_string` and `is_array` tell it apart. */
  datatype Value = Null | Str(s: string) | Arr(items: seq<string>) | Other

  /** PHP's truthiness of a string: only "" and "0" are false. */
  predicate IsFalsyString(s: string) {
    s == "" || s == "0"
  }

  /** What reflection reports about the loaded code. `classes` answers
      `class_exists`; `publicMethods` holds every class and interface that
      `ReflectionClass` can load, with the names of its public methods;
      `docComments` holds every (class, method) pair for which `method_exists`
      holds, with the method's doc comment ("" when it has none). */
  datatype Runtime = Runtime(
    classes: set<string>,
    publicMethods: map<string, seq<string>>,
    docComments: map<(string, string), string>)
  {
    predicate ClassExists(name: string) {
      name in classes
    }

    predicate HasMethod(className: string, methodName: string) {
      (className, methodName) in docComments
    }

    predicate IsReflectable(name: string) {
      name in publicMethods
    }
  }

  // ---------------------------------------------------------------- strings

  predicate OccursAt(s: string, t: string, i: nat) {
    i + |t| <= |s| && s[i..i + |t|] == t
  }

  ghost predicate Contains(s: string, t: string) {
    exists i: nat :: OccursAt(s, t, i)
  }

  lemma OccursAtChar(s: string, c: char, i: nat)
    ensures OccursAt(s, [c], i) <==> i < |s| && s[i] == c
  {
    if i < |s| {
      assert s[i..i + 1] == [s[i]];
    }
  }

  lemma ContainsChar(s: string, c: char)
    ensures Contains(s, [c]) <==> c in s
  {
    if c in s {
      var i :| 0 <= i < |s| && s[i] == c;
      OccursAtChar(s, c, i);
    }
    if Contains(s, [c]) {
      var i: nat :| OccursAt(s, [c], i);
      OccursAtChar(s, c, i);
    }
  }

  /** The first occurrence of `t` in `s` at or after position `k`. */
  function IndexFrom(s: string, t: string, k: nat): (r: Option<nat>)
    requires |t| > 0
    ensures r.Some? ==> k <= r.value && OccursAt(s, t, r.value)
    ensures r.Some? ==> forall j: nat :: k <= j < r.value ==> !OccursAt(s, t, j)
    ensures r.None? ==> forall j: nat :: k <= j ==> !OccursAt(s, t, j)
    decreases |s| - k
  {
    if k + |t| > |s| then None
    else if s[k..k + |t|] == t then Some(k)
    else IndexFrom(s, t, k + 1)
  }

  /** The first occurrence of `t` in `s`: where `explode` makes its first cut. */
  function IndexOf(s: string, t: string): (r: Option<nat>)
    requires |t| > 0
    ensures r.Some? <==> Contains(s, t)
    ensures r.Some? ==> OccursAt(s, t, r.value)
    ensures r.Some? ==> forall j: nat :: j < r.value ==> !OccursAt(s, t, j)
  {
    IndexFrom(s, t, 0)
  }

  lemma NoOccurrenceInPrefix(s: string, t: string, i: nat)
    requires |t| > 0 && i <= |s|
    requires forall j: nat :: j < i ==> !OccursAt(s, t, j)
    ensures !Contains(s[..i], t)
  {
    if Contains(s[..i], t) {
      var j: nat :| OccursAt(s[..i], t, j);
      assert s[..i][j..j + |t|] == s[j..j + |t|];
      assert OccursAt(s, t, j);
    }
  }

  /** `explode($d, $s)`: the pieces of `s` between the occurrences of `d`,
      found from left to right. */
  function Explode(d: string, s: string): (parts: seq<string>)
    requires |d| > 0
    ensures |parts| >= 1
    ensures |parts| > 1 <==> Contains(s, d)
    ensures forall k :: 0 <= k < |parts| ==> !Contains(parts[k], d)
    ensures forall k, c :: 0 <= k < |parts| && c in parts[k] ==> c in s
    decreases |s|
  {
    match IndexOf(s, d)
    case None => [s]
    case Some(i) =>
      NoOccurrenceInPrefix(s, d, i);
      assert forall c :: c in s[..i] ==> c in s;
      assert forall c :: c in s[i + |d|..] ==> c in s;
      [s[..i]] + Explode(d, s[i + |d|..])
  }

  /** `implode($d, $parts)` */
  function Join(parts: seq<string>, d: string): string
    requires |parts| >= 1
  {
    if |parts| == 1 then parts[0] else parts[0] + d + Join(parts[1..], d)
  }

  /** A join of non-empty pieces starts with the first piece's first
      character and ends with the last piece's last one. */
  lemma {:induction false} JoinShape(parts: seq<string>, d: string)
    requires |parts| >= 1 && forall k :: 0 <= k < |parts| ==> parts[k] != []
    ensures Join(parts, d) != []
    ensures Join(parts, d)[0] == parts[0][0]
    ensures Join(parts, d)[|Join(parts, d)| - 1] == parts[|parts| - 1][|parts[|parts| - 1]| - 1]
    decreases |parts|
  {
    if |parts| > 1 {
      JoinShape(parts[1..], d);
    }
  }

  /** Every character of a join comes from a piece or from the glue. */
  lemma {:induction false} JoinChars(parts: seq<string>, d: string, c: char)
    requires |parts| >= 1 && c in Join(parts, d)
    ensures c in d || exists k :: 0 <= k < |parts| && c in parts[k]
    decreases |parts|
  {
    if |parts| > 1 {
      var rest := Join(parts[1..], d);
      assert Join(parts, d) == parts[0] + d + rest;
      if c !in parts[0] && c !in d {
        assert c in rest;
        JoinChars(parts[1..], d, c);
        var k :| 0 <= k < |parts[1..]| && c in parts[1..][k];
        assert c in parts[k + 1];
      }
    }
  }

  /** Gluing the pieces back together gives the original string. */
  lemma {:induction false} JoinExplode(d: string, s: string)
    requires |d| > 0
    ensures Join(Explode(d, s), d) == s
    decreases |s|
  {
    match IndexOf(s, d)
    case None =>
    case Some(i) =>
      JoinExplode(d, s[i + |d|..]);
      assert s == s[..i] + d + s[i + |d|..];
  }

  /** Splitting on a one-character delimiter undoes the gluing of pieces
      that do not contain it. */
  lemma {:induction false} ExplodeJoin(c: char, parts: seq<string>)
    requires |parts| >= 1
    requires forall k :: 0 <= k < |parts| ==> c !in parts[k]
    ensures Explode([c], Join(parts, [c])) == parts
    decreases |parts|
  {
    var s := Join(parts, [c]);
    if |parts| == 1 {
      ContainsChar(s, c);
    } else {
      var p := parts[0];
      var rest := Join(parts[1..], [c]);
      assert s == p + [c] + rest;
      OccursAtChar(s, c, |p|);
      forall j: nat | j < |p|
        ensures !OccursAt(s, [c], j)
      {
        OccursAtChar(s, c, j);
        assert s[j] == p[j];
      }
      var i := IndexOf(s, [c]);
      assert i == Some(|p|);
      assert s[..|p|] == p;
      assert s[|p| + 1..] == rest;
      ExplodeJoin(c, parts[1..]);
    }
  }

  /** `s` never holds `c` twice in a row. */
  predicate NoDoubled(s: string, c: char)
    decreases |s|
  {
    |s| < 2 || (!(s[0] == c && s[1] == c) && NoDoubled(s[1..], c))
  }

  /** The same, position by position. */
  lemma {:induction false} NoDoubledAt(s: string, c: char)
    ensures NoDoubled(s, c) <==> forall i :: 0 <= i < |s| - 1 ==> !(s[i] == c && s[i + 1] == c)
    decreases |s|
  {
    if |s| >= 2 {
      var t := s[1..];
      NoDoubledAt(t, c);
      if NoDoubled(s, c) {
        forall i | 0 <= i < |s| - 1
          ensures !(s[i] == c && s[i + 1] == c)
        {
          if i > 0 {
            assert s[i] == t[i - 1] && s[i + 1] == t[i];
          }
        }
      }
      if forall i :: 0 <= i < |s| - 1 ==> !(s[i] == c && s[i + 1] == c) {
        forall i | 0 <= i < |t| - 1
          ensures !(t[i] == c && t[i + 1] == c)
        {
          assert t[i] == s[i + 1] && t[i + 1] == s[i + 2];
        }
      }
    }
  }

  /** Splitting a non-empty string that neither starts nor ends with `c` and
      never doubles it gives no empty piece. */
  lemma {:induction false} ExplodeNoEmptyPieces(c: char, s: string)
    requires s != [] && s[0] != c && s[|s| - 1] != c && NoDoubled(s, c)
    ensures forall k :: 0 <= k < |Explode([c], s)| ==> Explode([c], s)[k] != []
    decreases |s|
  {
    match IndexOf(s, [c])
    case None =>
    case Some(i) =>
      NoDoubledAt(s, c);
      OccursAtChar(s, c, i);
      assert i != 0;
      var rest := s[i + 1..];
      assert i != |s| - 1;
      assert rest[0] == s[i + 1];
      assert rest[|rest| - 1] == s[|s| - 1];
      assert NoDoubled(rest, c) by {
        NoDoubledAt(rest, c);
        forall j | 0 <= j < |rest| - 1
          ensures !(rest[j] == c && rest[j + 1] == c)
        {
          assert rest[j] == s[i + 1 + j] && rest[j + 1] == s[i + 2 + j];
        }
      }
      ExplodeNoEmptyPieces(c, rest);
      assert s[..i] != [];
  }

  /** The characters `trim` strips by default: space, tab, newline, carriage
      return, NUL and vertical tab. */
  predicate IsTrimmable(c: char) {
    c == ' ' || c == '\t' || c == '\n' || c == '\r' || c == '\0' || c == '\U{000B}'
  }

  /** How many characters `ltrim` strips from `s`. */
  function LeadingTrimmable(s: string): (n: nat)
    ensures n <= |s|
    ensures forall k :: 0 <= k < n ==> IsTrimmable(s[k])
    ensures n < |s| ==> !IsTrimmable(s[n])
    decreases |s|
  {
    if |s| > 0 && IsTrimmable(s[0]) then 1 + LeadingTrimmable(s[1..]) else 0
  }

  /** How many characters `rtrim` keeps of `s`. */
  function KeptByRtrim(s: string): (n: nat)
    ensures n <= |s|
    ensures forall k :: n <= k < |s| ==> IsTrimmable(s[k])
    ensures n > 0 ==> !IsTrimmable(s[n - 1])
    decreases |s|
  {
    if |s| > 0 && IsTrimmable(s[|s| - 1]) then KeptByRtrim(s[..|s| - 1]) else |s|
  }

  /** `trim($s)`: `s` without its leading and trailing trimmable characters. */
  function Trim(s: string): (r: string)
    ensures exists i, j ::
              && 0 <= i <= j <= |s| && r == s[i..j]
              && (forall k :: 0 <= k < i ==> IsTrimmable(s[k]))
              && (forall k :: j <= k < |s| ==> IsTrimmable(s[k]))
    ensures r == [] || (!IsTrimmable(r[0]) && !IsTrimmable(r[|r| - 1]))
    ensures r == [] <==> forall k :: 0 <= k < |s| ==> IsTrimmable(s[k])
    ensures forall c :: c in r ==> c in s
  {
    var i := LeadingTrimmable(s);
    var j := i + KeptByRtrim(s[i..]);
    TrimWindow(s, i, j);
    s[i..j]
  }

  /** The window `trim` keeps lies between the leading and the trailing
      strippable runs, and it starts and ends with kept characters. */
  lemma TrimWindow(s: string, i: nat, j: nat)
    requires i == LeadingTrimmable(s) && j == i + KeptByRtrim(s[i..])
    ensures i <= j <= |s|
    ensures forall k :: j <= k < |s| ==> IsTrimmable(s[k])
    ensures i < j ==> !IsTrimmable(s[i]) && !IsTrimmable(s[j - 1])
    ensures i == j <==> forall k :: 0 <= k < |s| ==> IsTrimmable(s[k])
  {
    var t := s[i..];
    assert forall k :: 0 <= k < |t| ==> t[k] == s[i + k];
    if i < |s| {
      assert t[0] == s[i];
    }
  }

  /** Trimming a string made of strippable padding and then a part with
      kept characters at both ends gives that part. */
  lemma TrimOfPadded(pad: string, m: string)
    requires forall c :: c in pad ==> IsTrimmable(c)
    requires m != [] && !IsTrimmable(m[0]) && !IsTrimmable(m[|m| - 1])
    ensures Trim(pad + m) == m
  {
    var s := pad + m;
    LeadingOfPadded(pad, m);
    assert s[|pad|..] == m;
    assert KeptByRtrim(m) == |m|;
  }

  /** `ltrim` strips exactly the padding in front of a kept character. */
  lemma LeadingOfPadded(pad: string, m: string)
    requires forall c :: c in pad ==> IsTrimmable(c)
    requires m != [] && !IsTrimmable(m[0])
    ensures LeadingTrimmable(pad + m) == |pad|
  {
    var s := pad + m;
    var n := LeadingTrimmable(s);
    assert forall k :: 0 <= k < |pad| ==> s[k] == pad[k] && s[k] in pad;
    assert s[|pad|] == m[0];
  }

  /** Trimming twice strips nothing more. */
  lemma TrimIdempotent(s: string)
    ensures Trim(Trim(s)) == Trim(s)
  {
    var r := Trim(s);
    if r != [] {
      assert LeadingTrimmable(r) == 0;
      assert KeptByRtrim(r) == |r|;
    }
  }

  /** Trimming never creates a doubled character. */
  lemma TrimKeepsNoDoubled(s: string, c: char)
    requires NoDoubled(s, c)
    ensures NoDoubled(Trim(s), c)
  {
    var i := LeadingTrimmable(s);
    var t := s[i..];
    var r := t[..KeptByRtrim(t)];
    assert r == Trim(s);
    NoDoubledAt(s, c);
    NoDoubledAt(r, c);
    forall j | 0 <= j < |r| - 1
      ensures !(r[j] == c && r[j + 1] == c)
    {
      assert r[j] == s[i + j] && r[j + 1] == s[i + j + 1];
    }
  }

  // ----------------------------------------------------------------- arrays

  predicate Distinct<T(==)>(s: seq<T>) {
    forall i, j :: 0 <= i < j < |s| ==> s[i] != s[j]
  }

  /** `array_unique` on a list: every value once, where it first occurs. */
  function Unique(s: seq<string>): (r: seq<string>)
    ensures Distinct(r)
    ensures forall x :: x in r <==> x in s
    decreases |s|
  {
    if s == [] then []
    else
      var u := Unique(s[..|s| - 1]);
      assert s == s[..|s| - 1] + [s[|s| - 1]];
      if s[|s| - 1] in u then u else u + [s[|s| - 1]]
  }

  /** Appending values never moves or drops what `array_unique` kept of the
      front part. */
  lemma {:induction false} UniquePrefix(a: seq<string>, b: seq<string>)
    ensures |Unique(a)| <= |Unique(a + b)|
    ensures Unique(a + b)[..|Unique(a)|] == Unique(a)
    decreases |b|
  {
    if b == [] {
      assert a + b == a;
    } else {
      var b' := b[..|b| - 1];
      assert (a + b)[..|a + b| - 1] == a + b';
      UniquePrefix(a, b');
    }
  }

  /** A list without repeated values is left as it is. */
  lemma {:induction false} UniqueOfDistinct(s: seq<string>)
    requires Distinct(s)
    ensures Unique(s) == s
    decreases |s|
  {
    if s != [] {
      var p := s[..|s| - 1];
      UniqueOfDistinct(p);
      assert s[|s| - 1] !in p;
      assert s == p + [s[|s| - 1]];
    }
  }

  /** An ordered dictionary with string keys, as PHP arrays and the
      properties of a `stdClass` object keep them. */
  datatype Dict<V> = Dict(keys: seq<string>, entries: map<string, V>) {
    ghost predicate Valid() {
      Distinct(keys) && forall k :: k in keys <==> k in entries
    }
  }

  function EmptyDict<V>(): (d: Dict<V>)
    ensures d.Valid() && d.keys == []
  {
    Dict([], map[])
  }

  /** `$d[$k] = $v` or `$o->$k = $v`: the key now holds `v`; an existing key
      keeps its place and a new one goes last; other keys keep their values. */
  function Assign<V>(d: Dict<V>, k: string, v: V): (r: Dict<V>)
    ensures d.Valid() ==> r.Valid()
    ensures k in r.entries && r.entries[k] == v
    ensures forall q :: q != k ==> (q in r.entries <==> q in d.entries)
    ensures forall q :: q != k && q in d.entries ==> r.entries[q] == d.entries[q]
    ensures d.Valid() && k in d.keys ==> r.keys == d.keys
    ensures d.Valid() && k !in d.keys ==> r.keys == d.keys + [k]
  {
    Dict(if k in d.entries then d.keys else d.keys + [k], d.entries[k := v])
  }
}
