/**
 * nmcli's terse (`-t`) output: one record per line, fields separated by `:`,
 * and a colon that belongs to a value written as `\:`. This module models
 * `parse_terse_line` (src/nmcli.rs:285-310): a reference definition of the
 * fields of a line, the imperative scanner proved equal to it, and what the
 * format promises (field count, escaping, the round trip through escaping).
 */
module Terse {

  /** Prepends one character to the first field of a non-empty field list. */
  function PushFront(c: char, fs: seq<string>): (r: seq<string>)
    requires |fs| >= 1
    ensures |r| == |fs| && r[0] == [c] + fs[0] && r[1..] == fs[1..]
  {
    [[c] + fs[0]] + fs[1..]
  }

  /**
   * The fields of a terse line, read from the front: `\:` contributes a
   * colon to the current field, a bare `:` closes it, anything else
   * (a lone backslash included) is kept as it is.
   */
  function Fields(line: string): (fs: seq<string>)
    ensures |fs| >= 1
    decreases |line|
  {
    if line == [] then [[]]
    else if line[0] == '\\' && |line| >= 2 && line[1] == ':' then PushFront(':', Fields(line[2..]))
    else if line[0] == ':' then [[]] + Fields(line[1..])
    else PushFront(line[0], Fields(line[1..]))
  }

  /** The field list once the closed `fields`, the open `current` field and the fields of the rest are put together. */
  function Glue(fields: seq<string>, current: string, rest: seq<string>): seq<string>
    requires |rest| >= 1
  {
    fields + [current + rest[0]] + rest[1..]
  }

  lemma GlueChar(fields: seq<string>, current: string, c: char, rest: seq<string>)
    requires |rest| >= 1
    ensures Glue(fields, current, PushFront(c, rest)) == Glue(fields, current + [c], rest)
  {
    assert current + ([c] + rest[0]) == current + [c] + rest[0];
  }

  lemma GlueClose(fields: seq<string>, current: string, rest: seq<string>)
    requires |rest| >= 1
    ensures Glue(fields, current, [[]] + rest) == Glue(fields + [current], [], rest)
  {
    assert current + [] == current;
    assert ([[]] + rest)[1..] == rest;
    assert [] + rest[0] == rest[0];
    assert [rest[0]] + rest[1..] == rest;
  }

  /** `parse_terse_line`: a left-to-right scan that closes a field at each unescaped colon. */
  method ParseTerseLine(line: string) returns (fields: seq<string>)
    ensures fields == Fields(line)
  {
    fields := [];
    var current: string := [];
    var i := 0;
    assert line[0..] == line;
    ghost var all := Fields(line);
    assert [] + all[0] == all[0];
    assert [all[0]] + all[1..] == all;
    while i < |line|
      invariant 0 <= i <= |line|
      invariant Fields(line) == Glue(fields, current, Fields(line[i..]))
      decreases |line| - i
    {
      var ch := line[i];
      ghost var rest := line[i..];
      if ch == '\\' {
        if i + 1 < |line| && line[i + 1] == ':' {
          assert rest[2..] == line[i + 2..];
          GlueChar(fields, current, ':', Fields(line[i + 2..]));
          current := current + [':'];
          i := i + 2;
          continue;
        }
        assert rest[1..] == line[i + 1..];
        GlueChar(fields, current, ch, Fields(line[i + 1..]));
        current := current + [ch];
      } else if ch == ':' {
        assert rest[1..] == line[i + 1..];
        GlueClose(fields, current, Fields(line[i + 1..]));
        fields := fields + [current];
        current := [];
      } else {
        assert rest[1..] == line[i + 1..];
        GlueChar(fields, current, ch, Fields(line[i + 1..]));
        current := current + [ch];
      }
      i := i + 1;
    }
    assert line[i..] == [];
    assert current + [] == current;
    fields := fields + [current];
  }

  /** Position `k` holds a field separator: a colon not preceded by a backslash. */
  predicate IsSeparator(s: string, k: nat)
    requires k < |s|
  {
    s[k] == ':' && (k == 0 || s[k - 1] != '\\')
  }

  /** Number of separators at positions `k` and after. */
  function SeparatorsFrom(s: string, k: nat): nat
    decreases |s| - k
  {
    if k >= |s| then 0
    else (if IsSeparator(s, k) then 1 else 0) + SeparatorsFrom(s, k + 1)
  }

  /** Separators strictly past the cut point are the same seen from the suffix. */
  lemma {:induction false} SeparatorsOfSuffix(s: string, m: nat, k: nat)
    requires m < k
    requires m <= |s|
    ensures SeparatorsFrom(s, k) == SeparatorsFrom(s[m..], k - m)
    decreases |s| - k
  {
    if k < |s| {
      assert s[m..][k - m] == s[k] && s[m..][k - m - 1] == s[k - 1];
      SeparatorsOfSuffix(s, m, k + 1);
    }
  }

  /** A line has exactly one more field than it has unescaped colons. */
  lemma {:induction false} FieldCount(line: string)
    ensures |Fields(line)| == SeparatorsFrom(line, 0) + 1
    decreases |line|
  {
    if line == [] {
    } else if line[0] == '\\' && |line| >= 2 && line[1] == ':' {
      var t := line[2..];
      FieldCount(t);
      assert SeparatorsFrom(line, 0) == SeparatorsFrom(line, 2);
      if |line| > 2 {
        SeparatorsOfSuffix(line, 2, 3);
        assert t[0] == line[2];
        assert SeparatorsFrom(line, 2) == (if IsSeparator(line, 2) then 1 else 0) + SeparatorsFrom(line, 3);
        assert SeparatorsFrom(t, 0) == (if IsSeparator(t, 0) then 1 else 0) + SeparatorsFrom(t, 1);
      }
    } else {
      var t := line[1..];
      FieldCount(t);
      assert SeparatorsFrom(line, 0) == (if IsSeparator(line, 0) then 1 else 0) + SeparatorsFrom(line, 1);
      if |line| > 1 {
        SeparatorsOfSuffix(line, 1, 2);
        assert t[0] == line[1];
        assert SeparatorsFrom(line, 1) == (if IsSeparator(line, 1) then 1 else 0) + SeparatorsFrom(line, 2);
        assert SeparatorsFrom(t, 0) == (if IsSeparator(t, 0) then 1 else 0) + SeparatorsFrom(t, 1);
      }
    }
  }

  /** The escaping that `Fields` undoes: every colon of a value becomes `\:`. */
  function Escape(f: string): (e: string)
    ensures |e| >= |f|
    ensures e != [] ==> e[0] != ':'
  {
    if f == [] then []
    else if f[0] == ':' then "\\:" + Escape(f[1..])
    else [f[0]] + Escape(f[1..])
  }

  /** A terse line: the escaped values joined by `:`. */
  function Join(fs: seq<string>): string
    requires |fs| >= 1
  {
    if |fs| == 1 then Escape(fs[0]) else Escape(fs[0]) + ":" + Join(fs[1..])
  }

  lemma FieldsOfEscapedColon(tail: string)
    ensures Fields("\\:" + tail) == PushFront(':', Fields(tail))
  {
    var s := "\\:" + tail;
    assert s[0] == '\\' && s[1] == ':';
    assert s[2..] == tail;
  }

  lemma FieldsOfPlainChar(c: char, tail: string)
    requires c != ':'
    requires c == '\\' ==> tail == [] || tail[0] != ':'
    ensures Fields([c] + tail) == PushFront(c, Fields(tail))
  {
    var s := [c] + tail;
    assert s[0] == c && s[1..] == tail;
  }

  lemma PushFrontOnto(c: char, t: string, r: seq<string>)
    requires |r| >= 1
    ensures PushFront(c, [t + r[0]] + r[1..]) == [([c] + t) + r[0]] + r[1..]
  {
    assert ([t + r[0]] + r[1..])[1..] == r[1..];
    assert [c] + (t + r[0]) == ([c] + t) + r[0];
  }

  lemma FieldsOfEscapedHeadColon(f: string, rest: string)
    requires f != [] && f[0] == ':'
    ensures Fields(Escape(f) + rest) == PushFront(':', Fields(Escape(f[1..]) + rest))
  {
    var tail := Escape(f[1..]) + rest;
    assert Escape(f) + rest == "\\:" + tail;
    FieldsOfEscapedColon(tail);
  }

  lemma EscapeOfPlainHead(f: string, rest: string)
    requires f != [] && f[0] != ':'
    ensures Escape(f) + rest == [f[0]] + (Escape(f[1..]) + rest)
  {
  }

  lemma FieldsOfEscapedHeadPlain(f: string, rest: string)
    requires f != [] && f[0] != ':'
    requires f[0] == '\\' && |f| == 1 ==> rest == [] || rest[0] != ':'
    ensures Fields(Escape(f) + rest) == PushFront(f[0], Fields(Escape(f[1..]) + rest))
  {
    var t := f[1..];
    var tail := Escape(t) + rest;
    EscapeOfPlainHead(f, rest);
    assert f[0] == '\\' ==> tail == [] || tail[0] != ':' by {
      if f[0] == '\\' && tail != [] && t != [] {
        assert tail[0] == Escape(t)[0];
      }
    }
    FieldsOfPlainChar(f[0], tail);
  }

  /** Reading an escaped value followed by more text puts the value at the front of the first field. */
  lemma {:induction false} FieldsOfEscaped(f: string, rest: string)
    requires f == [] || f[|f| - 1] != '\\' || rest == [] || rest[0] != ':'
    ensures Fields(Escape(f) + rest) == [f + Fields(rest)[0]] + Fields(rest)[1..]
    decreases |f|
  {
    if f == [] {
      FieldsOfEscapedNothing(rest);
    } else {
      FieldsOfEscaped(f[1..], rest);
      FieldsOfEscapedStep(f, rest);
    }
  }

  lemma FieldsOfEscapedNothing(rest: string)
    ensures Fields(Escape([]) + rest) == [[] + Fields(rest)[0]] + Fields(rest)[1..]
  {
    var r := Fields(rest);
    assert Escape([]) + rest == rest;
    assert [] + r[0] == r[0];
    assert [r[0]] + r[1..] == r;
  }

  /** One more character in front of the value, given the claim for the rest of the value. */
  lemma FieldsOfEscapedStep(f: string, rest: string)
    requires f != []
    requires f[|f| - 1] != '\\' || rest == [] || rest[0] != ':'
    requires Fields(Escape(f[1..]) + rest) == [f[1..] + Fields(rest)[0]] + Fields(rest)[1..]
    ensures Fields(Escape(f) + rest) == [f + Fields(rest)[0]] + Fields(rest)[1..]
  {
    if f[0] == ':' {
      FieldsOfEscapedHeadColon(f, rest);
    } else {
      FieldsOfEscapedHeadPlain(f, rest);
    }
    PushFrontValue(f, Fields(rest));
  }

  /** Putting the first character of a value back in front of the rest of it. */
  lemma PushFrontValue(f: string, r: seq<string>)
    requires f != [] && |r| >= 1
    ensures PushFront(f[0], [f[1..] + r[0]] + r[1..]) == [f + r[0]] + r[1..]
  {
    PushFrontOnto(f[0], f[1..], r);
    assert [f[0]] + f[1..] == f;
  }

  /** Escaping distributes over concatenation. */
  lemma {:induction false} EscapeAppend(a: string, b: string)
    ensures Escape(a + b) == Escape(a) + Escape(b)
    decreases |a|
  {
    if a != [] {
      var head := if a[0] == ':' then "\\:" else [a[0]];
      EscapeCons(a[0], a[1..]);
      assert [a[0]] + a[1..] == a;
      EscapeCons(a[0], a[1..] + b);
      assert [a[0]] + (a[1..] + b) == a + b;
      EscapeAppend(a[1..], b);
      assert head + (Escape(a[1..]) + Escape(b)) == (head + Escape(a[1..])) + Escape(b);
    } else {
      assert a + b == b;
    }
  }

  /** How one leading character is written. */
  lemma EscapeCons(c: char, t: string)
    ensures Escape([c] + t) == (if c == ':' then "\\:" else [c]) + Escape(t)
  {
    assert ([c] + t)[0] == c && ([c] + t)[1..] == t;
  }

  /** A value without colons is written as it is. */
  lemma {:induction false} EscapeColonFree(a: string)
    requires ':' !in a
    ensures Escape(a) == a
    decreases |a|
  {
    if a != [] {
      assert a[0] != ':';
      EscapeColonFree(a[1..]);
    }
  }

  /**
   * Escaping colons, joining with `:` and parsing returns the original
   * values, provided no value but the last ends in a backslash (such a
   * backslash would pair with the separator that follows it).
   */
  lemma {:induction false} FieldsOfJoin(fs: seq<string>)
    requires |fs| >= 1
    requires forall i :: 0 <= i < |fs| - 1 ==> fs[i] == [] || fs[i][|fs[i]| - 1] != '\\'
    ensures Fields(Join(fs)) == fs
    decreases |fs|
  {
    if |fs| == 1 {
      FieldsOfEscaped(fs[0], []);
      assert Escape(fs[0]) + [] == Escape(fs[0]);
      assert Fields([]) == [[]];
      assert fs[0] + [] == fs[0];
      assert [fs[0]] == fs;
    } else {
      var tailFs := fs[1..];
      assert forall i :: 0 <= i < |tailFs| - 1 ==> tailFs[i] == fs[i + 1];
      FieldsOfJoin(tailFs);
      var rest := ":" + Join(tailFs);
      assert rest[0] == ':' && rest[1..] == Join(tailFs);
      assert Fields(rest) == [[]] + tailFs;
      assert fs[0] == [] || fs[0][|fs[0]| - 1] != '\\';
      FieldsOfEscaped(fs[0], rest);
      assert Join(fs) == Escape(fs[0]) + rest;
      assert fs[0] + [] == fs[0];
      assert [fs[0]] + tailFs == fs;
    }
  }

  lemma JoinTwo(c: string, d: string)
    ensures Join([c, d]) == Escape(c) + ":" + Escape(d)
  {
    assert [c, d][1..] == [d];
  }

  lemma JoinThree(b: string, c: string, d: string)
    ensures Join([b, c, d]) == Escape(b) + ":" + Join([c, d])
  {
    assert [b, c, d][1..] == [c, d];
  }

  /** A four-field line, as in the scan listing. */
  lemma JoinFour(a: string, b: string, c: string, d: string)
    ensures Join([a, b, c, d]) == Escape(a) + ":" + (Escape(b) + ":" + (Escape(c) + ":" + Escape(d)))
  {
    assert [a, b, c, d][1..] == [b, c, d];
    JoinThree(b, c, d);
    JoinTwo(c, d);
  }

  lemma EscapeMyWifi()
    ensures Escape("My:Wifi") == "My\\:Wifi"
  {
    EscapeColonFree("My");
    EscapeColonFree("Wifi");
    assert "My:Wifi" == "My" + (":" + "Wifi");
    EscapeAppend("My", ":" + "Wifi");
    EscapeAppend(":", "Wifi");
    assert Escape(":") == "\\:";
  }

  lemma JoinEscapedColonExample()
    ensures Join(["*", "My:Wifi", "85", "WPA2"]) == "*:My\\:Wifi:85:WPA2"
  {
    EscapeColonFree("*");
    EscapeMyWifi();
    EscapeColonFree("85");
    EscapeColonFree("WPA2");
    JoinFour("*", "My:Wifi", "85", "WPA2");
    ConcatEscapedColonExample();
  }

  lemma ConcatEscapedColonExample()
    ensures "*" + ":" + ("My\\:Wifi" + ":" + ("85" + ":" + "WPA2")) == "*:My\\:Wifi:85:WPA2"
  {
  }

  predicate EndsInBackslash(s: string)
  {
    s != [] && s[|s| - 1] == '\\'
  }

  /** The four-field case of the round trip. */
  lemma FieldsOfJoinFour(a: string, b: string, c: string, d: string)
    requires !EndsInBackslash(a) && !EndsInBackslash(b) && !EndsInBackslash(c)
    ensures Fields(Join([a, b, c, d])) == [a, b, c, d]
  {
    var fs := [a, b, c, d];
    forall i | 0 <= i < |fs| - 1
      ensures fs[i] == [] || fs[i][|fs[i]| - 1] != '\\'
    {
      assert fs[i] == a || fs[i] == b || fs[i] == c;
    }
    FieldsOfJoin(fs);
  }

  lemma JoinBasicExample()
    ensures Join(["*", "MyWifi", "85", "WPA2"]) == "*:MyWifi:85:WPA2"
  {
    EscapeColonFree("*");
    EscapeColonFree("MyWifi");
    EscapeColonFree("85");
    EscapeColonFree("WPA2");
    JoinFour("*", "MyWifi", "85", "WPA2");
    ConcatBasicExample();
  }

  lemma ConcatBasicExample()
    ensures "*" + ":" + ("MyWifi" + ":" + ("85" + ":" + "WPA2")) == "*:MyWifi:85:WPA2"
  {
  }

  /** The basic example of src/nmcli.rs:341-344. */
  lemma BasicExample()
    ensures Fields("*:MyWifi:85:WPA2") == ["*", "MyWifi", "85", "WPA2"]
  {
    JoinBasicExample();
    FieldsOfJoinFour("*", "MyWifi", "85", "WPA2");
  }

  /** The escaped-colon example of src/nmcli.rs:347-350. */
  lemma EscapedColonExample()
    ensures Fields("*:My\\:Wifi:85:WPA2") == ["*", "My:Wifi", "85", "WPA2"]
  {
    JoinEscapedColonExample();
    FieldsOfJoinFour("*", "My:Wifi", "85", "WPA2");
  }

  lemma JoinEmptyFieldExample()
    ensures Join(["*", "", "85", "WPA2"]) == "*::85:WPA2"
  {
    EscapeColonFree("*");
    EscapeColonFree("85");
    EscapeColonFree("WPA2");
    JoinFour("*", "", "85", "WPA2");
  }

  /** The empty-field example of src/nmcli.rs:353-356: an empty value is kept, not dropped. */
  lemma EmptyFieldExample()
    ensures Fields("*::85:WPA2") == ["*", "", "85", "WPA2"]
  {
    JoinEmptyFieldExample();
    FieldsOfJoinFour("*", "", "85", "WPA2");
  }
}
