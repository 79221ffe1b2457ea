/** The pieces of Go's standard library that the merger and the window rely on,
    written out so that their behaviour on every string is part of the model:
    filepath.Ext and filepath.Base for '/'-separated paths, strings.ToLower on
    ASCII letters, and fmt's %d rendering of a count. */
module Text {

  const Separator: char := '/'

  predicate IsSuffix(e: string, s: string) {
    |e| <= |s| && s[|s| - |e|..] == e
  }

  predicate IsDigit(c: char) {
    '0' <= c <= '9'
  }

  predicate AllDigits(s: string) {
    forall i :: 0 <= i < |s| ==> IsDigit(s[i])
  }

  /** filepath.Ext: scanning back from the end of the path, the suffix that starts
      at the first '.' met before a separator, or "" when a separator (or the start)
      comes first. */
  function Ext(path: string): (e: string)
    ensures |e| <= |path|
    decreases |path|
  {
    if path == [] then []
    else
      var c := path[|path| - 1];
      if c == Separator then []
      else if c == '.' then [c]
      else
        var e := Ext(path[..|path| - 1]);
        if e == [] then [] else e + [c]
  }

  /** What Ext finds is a suffix of the path, and either empty or starting with '.'. */
  lemma {:induction false} ExtIsDottedSuffix(path: string)
    ensures IsSuffix(Ext(path), path)
    ensures Ext(path) != [] ==> Ext(path)[0] == '.'
    decreases |path|
  {
    if path != [] {
      var c := path[|path| - 1];
      if c != Separator && c != '.' {
        var init := path[..|path| - 1];
        ExtIsDottedSuffix(init);
        var e := Ext(init);
        if e != [] {
          assert path[|path| - |e| - 1..] == init[|init| - |e|..] + [c];
        }
      }
    }
  }

  /** Past its leading '.', what Ext finds holds no '.' and no separator. */
  lemma {:induction false} ExtHasOneDot(path: string)
    ensures forall k :: 0 < k < |Ext(path)| ==> Ext(path)[k] != '.' && Ext(path)[k] != Separator
    decreases |path|
  {
    if path != [] {
      var c := path[|path| - 1];
      if c != Separator && c != '.' {
        ExtHasOneDot(path[..|path| - 1]);
      }
    }
  }

  /** Ext finds nothing exactly when the last element of the path holds no '.'. */
  lemma {:induction false} ExtEmptyIff(path: string)
    ensures Ext(path) == [] <==> '.' !in LastElement(path)
    decreases |path|
  {
    if path != [] {
      var c := path[|path| - 1];
      if c != Separator && c != '.' {
        var init := path[..|path| - 1];
        ExtEmptyIff(init);
        assert LastElement(path) == LastElement(init) + [c];
      }
    }
  }

  /** Read the other way: when the path holds a '.' at k followed only by characters
      that are neither '.' nor a separator, Ext is the suffix from k. */
  lemma {:induction false} ExtFromLastDot(path: string, k: nat)
    requires k < |path| && path[k] == '.'
    requires forall j :: k < j < |path| ==> path[j] != '.' && path[j] != Separator
    ensures Ext(path) == path[k..]
    decreases |path|
  {
    if k < |path| - 1 {
      var init := path[..|path| - 1];
      ExtFromLastDot(init, k);
      assert path[k..] == init[k..] + [path[|path| - 1]];
    }
  }

  /** strings.ToLower on one character: ASCII upper-case letters are lowered and
      every other character is left alone. */
  function LowerChar(c: char): char {
    if 'A' <= c <= 'Z' then (c as int - 'A' as int + 'a' as int) as char else c
  }

  /** strings.ToLower: same length, every character lowered on its own, and only
      the ASCII upper-case letters change. */
  function ToLower(s: string): (r: string)
    ensures |r| == |s|
    ensures forall i :: 0 <= i < |s| ==> r[i] == LowerChar(s[i])
    ensures forall i :: 0 <= i < |s| ==> (r[i] != s[i] <==> 'A' <= s[i] <= 'Z')
  {
    seq(|s|, i requires 0 <= i < |s| => LowerChar(s[i]))
  }

  /** The path without its trailing separators. */
  function TrimTrailingSeparators(s: string): (r: string)
    ensures |r| <= |s| && r == s[..|r|]
    ensures r == [] || r[|r| - 1] != Separator
    ensures forall k :: |r| <= k < |s| ==> s[k] == Separator
    decreases |s|
  {
    if s != [] && s[|s| - 1] == Separator then TrimTrailingSeparators(s[..|s| - 1]) else s
  }

  /** Where the last element of the path starts: just after its last separator, or
      at 0 when it has none. */
  function LastStart(s: string): (i: nat)
    ensures i <= |s|
    ensures forall k :: i <= k < |s| ==> s[k] != Separator
    ensures i > 0 ==> s[i - 1] == Separator
    decreases |s|
  {
    if s == [] || s[|s| - 1] == Separator then |s|
    else
      var init := s[..|s| - 1];
      assert forall k :: 0 <= k < |init| ==> init[k] == s[k];
      LastStart(init)
  }

  /** What follows the last separator of the path (all of it when there is none). */
  function LastElement(s: string): (r: string)
    ensures IsSuffix(r, s)
    ensures forall k :: 0 <= k < |r| ==> r[k] != Separator
    ensures |r| < |s| ==> s[|s| - |r| - 1] == Separator
  {
    s[LastStart(s)..]
  }

  /** filepath.Base: the last element of the path once trailing separators are
      dropped; "." for the empty path and "/" for a path made only of separators. */
  function Base(path: string): (b: string)
    ensures b != []
    ensures path == [] ==> b == "."
    ensures forall k :: 0 <= k < |b| ==> b[k] != Separator || b == [Separator]
    ensures path != [] && (forall k :: 0 <= k < |path| ==> path[k] != Separator) ==> b == path
    ensures path != [] && (forall k :: 0 <= k < |path| ==> path[k] == Separator) ==> b == [Separator]
  {
    if path == [] then "."
    else
      var t := TrimTrailingSeparators(path);
      if t == [] then [Separator] else LastElement(t)
  }

  /** The last element after a separator is the element itself, whatever precedes the
      separator. */
  lemma {:induction false} LastElementAfterSeparator(dir: string, name: string)
    requires forall k :: 0 <= k < |name| ==> name[k] != Separator
    ensures LastStart(dir + [Separator] + name) == |dir| + 1
    ensures LastElement(dir + [Separator] + name) == name
    decreases |name|
  {
    var s := dir + [Separator] + name;
    if name != [] {
      var init := name[..|name| - 1];
      assert s[..|s| - 1] == dir + [Separator] + init;
      LastElementAfterSeparator(dir, init);
    }
  }

  /** Base names the last element of a path, with or without a trailing separator. */
  lemma BaseIsLastElement(dir: string, name: string)
    requires name != [] && forall k :: 0 <= k < |name| ==> name[k] != Separator
    ensures Base(dir + [Separator] + name) == name
    ensures Base(dir + [Separator] + name + [Separator]) == name
  {
    var p := dir + [Separator] + name;
    LastElementAfterSeparator(dir, name);
    assert TrimTrailingSeparators(p) == p;
    assert (p + [Separator])[..|p|] == p;
    assert TrimTrailingSeparators(p + [Separator]) == p;
  }

  function DigitChar(d: nat): (c: char)
    requires d < 10
    ensures IsDigit(c)
  {
    ('0' as int + d) as char
  }

  /** fmt's %d for a natural number: decimal digits, no leading zero. */
  function Decimal(n: nat): (s: string)
    ensures |s| >= 1 && AllDigits(s)
    ensures s[0] == '0' ==> n == 0
    decreases n
  {
    if n < 10 then [DigitChar(n)] else Decimal(n / 10) + [DigitChar(n % 10)]
  }

  /** The number a string of decimal digits denotes. */
  function DecimalValue(s: string): nat
    requires AllDigits(s)
    decreases |s|
  {
    if s == [] then 0 else 10 * DecimalValue(s[..|s| - 1]) + (s[|s| - 1] as int - '0' as int)
  }

  /** Reading back what %d wrote gives the number: Decimal is injective. */
  lemma {:induction false} DecimalRoundTrip(n: nat)
    ensures DecimalValue(Decimal(n)) == n
    decreases n
  {
    if n >= 10 {
      DecimalRoundTrip(n / 10);
      var s := Decimal(n);
      assert s[..|s| - 1] == Decimal(n / 10);
    }
  }
}
