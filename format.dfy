/** Python's `str.format` called with one positional argument, for the generated code's
    placeholders: `{{` and `}}` stand for single braces, `{}` and `{0}` (or `{00}`) for the argument, and
    any other replacement field, an unclosed `{` or a lone `}` raises. A format string numbers
    its fields automatically (`{}`) or by hand (`{0}`), never both, and automatic numbering
    past the one argument raises IndexError. */
module PyFormat {
  import opened Wrappers
  import opened Text

  /** Text in which `str.format` sees nothing to replace. */
  predicate BraceFree(s: string) {
    forall j :: 0 <= j < |s| ==> s[j] != '{' && s[j] != '}'
  }

  /** A field name Python reads as the integer 0: one or more `0` digits. */
  predicate ZeroName(field: string) {
    |field| > 0 && forall j :: 0 <= j < |field| ==> field[j] == '0'
  }

  /** How the fields read so far were numbered. */
  datatype Numbering = Unnumbered | Automatic | Manual

  /** The first index at or after `k` holding `c`. */
  function FindFrom(s: string, c: char, k: nat): (r: Option<nat>)
    decreases |s| - k
    ensures r.Some? ==> k <= r.value < |s| && s[r.value] == c
    ensures r.Some? ==> forall j :: k <= j < r.value ==> s[j] != c
    ensures r.None? ==> forall j :: k <= j < |s| ==> s[j] != c
  {
    if k >= |s| then None else if s[k] == c then Some(k) else FindFrom(s, c, k + 1)
  }

  function Prepend(a: string, r: Option<(string, Numbering)>): Option<(string, Numbering)> {
    if r.Some? then Some((a + r.value.0, r.value.1)) else None
  }

  lemma PrependTwice(a: string, b: string, r: Option<(string, Numbering)>)
    ensures Prepend(a, Prepend(b, r)) == Prepend(a + b, r)
  {
    if r.Some? {
      assert a + (b + r.value.0) == (a + b) + r.value.0;
    }
  }

  /** `s.format(i)` from numbering state `n`: the text produced and the numbering after it,
      or None where Python raises. */
  function Fmt(s: string, i: nat, n: Numbering): Option<(string, Numbering)>
    decreases |s|
  {
    if s == [] then Some(([], n))
    else if s[0] == '{' then
      if |s| >= 2 && s[1] == '{' then Prepend("{", Fmt(s[2..], i, n))
      else
        match FindFrom(s, '}', 1)
        case None => None
        case Some(k) =>
          var field := s[1..k];
          if field == "" && n == Unnumbered then Prepend(NatToString(i), Fmt(s[k + 1..], i, Automatic))
          else if ZeroName(field) && n != Automatic then Prepend(NatToString(i), Fmt(s[k + 1..], i, Manual))
          else None
    else if s[0] == '}' then
      if |s| >= 2 && s[1] == '}' then Prepend("}", Fmt(s[2..], i, n)) else None
    else Prepend([s[0]], Fmt(s[1..], i, n))
  }

  /** `s.format(i)`: None where Python raises. */
  function Format(s: string, i: nat): Option<string> {
    var r := Fmt(s, i, Unnumbered);
    if r.Some? then Some(r.value.0) else None
  }

  /** Brace-free text comes out unchanged. */
  lemma {:induction false} FmtPlain(s: string, i: nat, n: Numbering)
    requires BraceFree(s)
    ensures Fmt(s, i, n) == Some((s, n))
  {
    if s != [] {
      FmtPlain(s[1..], i, n);
      assert [s[0]] + s[1..] == s;
    }
  }

  lemma FindPrefix(x: string, y: string, c: char, k: nat)
    requires FindFrom(x, c, k).Some?
    ensures FindFrom(x + y, c, k) == FindFrom(x, c, k)
  {
    var m := FindFrom(x, c, k).value;
    FindFromIs(x + y, c, k, m);
  }

  lemma {:induction false} FindFromIs(s: string, c: char, k: nat, m: nat)
    requires k <= m < |s| && s[m] == c && forall j :: k <= j < m ==> s[j] != c
    decreases m - k
    ensures FindFrom(s, c, k) == Some(m)
  {
    if k < m {
      FindFromIs(s, c, k + 1, m);
    }
  }

  /** Formatting reads left to right: once a prefix has been formatted, the rest is formatted
      from the numbering the prefix left behind. */
  lemma {:induction false} FmtConcat(x: string, y: string, i: nat, n: Numbering)
    requires Fmt(x, i, n).Some?
    decreases |x|
    ensures var a := Fmt(x, i, n).value;
            Fmt(x + y, i, n) == Prepend(a.0, Fmt(y, i, a.1))
  {
    if x == [] {
      assert x + y == y;
      if Fmt(y, i, n).Some? {
        assert [] + Fmt(y, i, n).value.0 == Fmt(y, i, n).value.0;
      }
    } else if x[0] == '{' && |x| >= 2 && x[1] == '{' {
      assert (x + y)[2..] == x[2..] + y;
      FmtConcat(x[2..], y, i, n);
      PrependTwice("{", Fmt(x[2..], i, n).value.0, Fmt(y, i, Fmt(x, i, n).value.1));
    } else if x[0] == '{' {
      var k := FindFrom(x, '}', 1).value;
      assert 1 <= k < |x|;
      FindPrefix(x, y, '}', 1);
      assert (x + y)[1..k] == x[1..k];
      assert (x + y)[k + 1..] == x[k + 1..] + y;
      var m := if x[1..k] == "" then Automatic else Manual;
      FmtConcat(x[k + 1..], y, i, m);
      PrependTwice(NatToString(i), Fmt(x[k + 1..], i, m).value.0, Fmt(y, i, Fmt(x, i, n).value.1));
    } else if x[0] == '}' {
      assert (x + y)[2..] == x[2..] + y;
      FmtConcat(x[2..], y, i, n);
      PrependTwice("}", Fmt(x[2..], i, n).value.0, Fmt(y, i, Fmt(x, i, n).value.1));
    } else {
      assert (x + y)[1..] == x[1..] + y;
      FmtConcat(x[1..], y, i, n);
      PrependTwice([x[0]], Fmt(x[1..], i, n).value.0, Fmt(y, i, Fmt(x, i, n).value.1));
    }
  }

  /** The one automatic placeholder becomes the argument. */
  lemma FmtPlaceholder(i: nat)
    ensures Fmt("{}", i, Unnumbered) == Some((NatToString(i), Automatic))
  {
    var s := "{}";
    assert FindFrom(s, '}', 1) == Some(1);
    assert s[1..1] == "" && s[2..] == "";
    assert NatToString(i) + [] == NatToString(i);
  }

  /** A second automatic placeholder asks for a second argument, which is not there. */
  lemma TwoPlaceholdersRaise(i: nat)
    ensures Format("{}{}", i) == None
  {
    var s := "{}{}";
    assert FindFrom(s, '}', 1) == Some(1);
    assert s[1..1] == "" && s[2..] == "{}";
    var t := "{}";
    assert FindFrom(t, '}', 1) == Some(1);
    assert t[1..1] == "";
  }

  /** Joining brace-free parts with a brace-free separator leaves nothing to replace. */
  lemma {:induction false} JoinBraceFree(sep: string, parts: seq<string>)
    requires BraceFree(sep) && forall j :: 0 <= j < |parts| ==> BraceFree(parts[j])
    ensures BraceFree(Join(sep, parts))
  {
    if |parts| > 1 {
      JoinBraceFree(sep, parts[1..]);
    }
  }
}
