/**
 * The JavaScript string built-ins the core relies on: the `\s` character
 * class (which is also what `trim` removes), `trim`, `toLowerCase`,
 * `join`, and the global removal of the bold marker `**`.
 */
module Text {

  /** JavaScript WhiteSpace and LineTerminator code points (`\s`, `trim`). */
  predicate IsSpace(c: char)
  {
    c == ' ' || c == '\t' || c == '\n' || c == '\r' || c == '\U{000B}' || c == '\U{000C}'
    || c == '\U{00A0}' || c == '\U{1680}' || ('\U{2000}' <= c <= '\U{200A}')
    || c == '\U{2028}' || c == '\U{2029}' || c == '\U{202F}' || c == '\U{205F}'
    || c == '\U{3000}' || c == '\U{FEFF}'
  }

  predicate AllSpace(s: string)
  {
    forall i :: 0 <= i < |s| ==> IsSpace(s[i])
  }

  predicate NoSpace(s: string)
  {
    forall i :: 0 <= i < |s| ==> !IsSpace(s[i])
  }

  /** Neither end of `s` is whitespace. */
  predicate IsTrimmed(s: string)
  {
    s == [] || (!IsSpace(s[0]) && !IsSpace(s[|s| - 1]))
  }

  /** The end of the run of whitespace that starts at `i`. */
  function SpacesEnd(s: string, i: nat): (r: nat)
    requires i <= |s|
    ensures i <= r <= |s|
    ensures forall k :: i <= k < r ==> IsSpace(s[k])
    ensures r < |s| ==> !IsSpace(s[r])
    decreases |s| - i
  {
    if i < |s| && IsSpace(s[i]) then SpacesEnd(s, i + 1) else i
  }

  /** The start of the run of whitespace that ends at `j`, not going below `a`. */
  function SpacesStart(s: string, a: nat, j: nat): (r: nat)
    requires a <= j <= |s|
    ensures a <= r <= j
    ensures forall k :: r <= k < j ==> IsSpace(s[k])
    ensures r > a ==> !IsSpace(s[r - 1])
  {
    if j > a && IsSpace(s[j - 1]) then SpacesStart(s, a, j - 1) else j
  }

  /** Where `trim` starts the result. */
  function TrimFrom(s: string): nat
  {
    SpacesEnd(s, 0)
  }

  /** Where `trim` ends the result. */
  function TrimTo(s: string): (r: nat)
    ensures TrimFrom(s) <= r <= |s|
  {
    SpacesStart(s, TrimFrom(s), |s|)
  }

  /**
   * `String.prototype.trim`: the slice between the leading and the trailing
   * whitespace. Only whitespace is cut, and what is left neither starts nor
   * ends with whitespace.
   */
  function Trim(s: string): (r: string)
    ensures r == s[TrimFrom(s)..TrimTo(s)]
    ensures AllSpace(s[..TrimFrom(s)]) && AllSpace(s[TrimTo(s)..])
    ensures IsTrimmed(r)
  {
    s[TrimFrom(s)..TrimTo(s)]
  }

  /** Text that is only whitespace trims to the empty string, and nothing else does. */
  lemma TrimEmptyIff(s: string)
    ensures Trim(s) == [] <==> AllSpace(s)
  {
    if Trim(s) == [] {
      assert s == s[..TrimFrom(s)] + s[TrimTo(s)..];
    }
  }

  /** Text that neither starts nor ends with whitespace is its own trim. */
  lemma TrimNoop(s: string)
    requires IsTrimmed(s)
    ensures Trim(s) == s
  {
  }

  /** Trimming twice is trimming once. */
  lemma TrimIdempotent(s: string)
    ensures Trim(Trim(s)) == Trim(s)
  {
    TrimNoop(Trim(s));
  }

  function LowerChar(c: char): char
  {
    if 'A' <= c <= 'Z' then (c as int + 32) as char else c
  }

  /** `toLowerCase`, for the ASCII letters: every upper-case letter becomes its lower-case form. */
  function ToLower(s: string): (r: string)
    ensures |r| == |s|
    ensures forall i :: 0 <= i < |s| ==> !('A' <= r[i] <= 'Z')
    ensures forall i :: 0 <= i < |s| && !('A' <= s[i] <= 'Z') ==> r[i] == s[i]
  {
    seq(|s|, i requires 0 <= i < |s| => LowerChar(s[i]))
  }

  /** Lower-casing twice is lower-casing once. */
  lemma ToLowerIdempotent(s: string)
    ensures ToLower(ToLower(s)) == ToLower(s)
  {
  }

  /** The total length of some strings. */
  function TotalLength(parts: seq<string>): nat
  {
    if parts == [] then 0 else |parts[0]| + TotalLength(parts[1..])
  }

  /**
   * `parts.join(sep)`: the parts in order with one separator between each
   * two neighbours and none at either end.
   */
  function Join(parts: seq<string>, sep: string): (r: string)
    ensures parts != [] ==> |r| == TotalLength(parts) + (|parts| - 1) * |sep|
    ensures parts != [] ==> |parts[0]| <= |r| && r[..|parts[0]|] == parts[0]
  {
    if parts == [] then ""
    else if |parts| == 1 then parts[0]
    else parts[0] + sep + Join(parts[1..], sep)
  }

  /** Joining two non-empty lists is joining each and putting one separator between them. */
  lemma {:induction false} JoinAppend(a: seq<string>, b: seq<string>, sep: string)
    requires a != [] && b != []
    ensures Join(a + b, sep) == Join(a, sep) + sep + Join(b, sep)
  {
    assert (a + b)[0] == a[0];
    if |a| == 1 {
      assert (a + b)[1..] == b;
    } else {
      assert (a + b)[1..] == a[1..] + b;
      JoinAppend(a[1..], b, sep);
    }
  }

  /** No two adjacent asterisks: no `**` bold marker left. */
  predicate NoBold(s: string)
  {
    forall i :: 0 <= i < |s| - 1 ==> !(s[i] == '*' && s[i + 1] == '*')
  }

  /** The characters of `s` other than `*`, in order. */
  function NonStars(s: string): string
  {
    if s == [] then "" else (if s[0] == '*' then "" else [s[0]]) + NonStars(s[1..])
  }

  /**
   * Global replacement of `**` by nothing: every `**`, matched left to right
   * without overlap, is deleted.
   */
  function RemoveBold(s: string): (r: string)
    ensures |r| <= |s|
  {
    if |s| >= 2 && s[0] == '*' && s[1] == '*' then RemoveBold(s[2..])
    else if s == [] then ""
    else [s[0]] + RemoveBold(s[1..])
  }

  /**
   * No `**` is left after the removal, only asterisks are removed, and every
   * other character keeps its order.
   */
  lemma {:induction false} RemoveBoldIsClean(s: string)
    ensures NoBold(RemoveBold(s))
    ensures NonStars(RemoveBold(s)) == NonStars(s)
    ensures RemoveBold(s) != [] && s[0] != '*' ==> RemoveBold(s)[0] == s[0]
  {
    if |s| >= 2 && s[0] == '*' && s[1] == '*' {
      RemoveBoldIsClean(s[2..]);
    } else if s != [] {
      var rest := RemoveBold(s[1..]);
      RemoveBoldIsClean(s[1..]);
      var r := [s[0]] + rest;
      assert r[1..] == rest;
      assert NonStars(r) == (if s[0] == '*' then "" else [s[0]]) + NonStars(rest);
      forall i | 0 <= i < |r| - 1
        ensures !(r[i] == '*' && r[i + 1] == '*')
      {
        if i > 0 {
          assert r[i] == rest[i - 1] && r[i + 1] == rest[i];
        }
      }
    }
  }

  /** Text with no `**` is left alone. */
  lemma {:induction false} RemoveBoldNoop(s: string)
    requires NoBold(s)
    ensures RemoveBold(s) == s
  {
    if |s| >= 2 {
      assert !(s[0] == '*' && s[1] == '*');
      RemoveBoldNoop(s[1..]);
    } else if s != [] {
      RemoveBoldNoop(s[1..]);
    }
  }

  /** Text without asterisks passes through unchanged in front of whatever follows. */
  lemma {:induction false} RemoveBoldStarFree(a: string, b: string)
    requires forall i :: 0 <= i < |a| ==> a[i] != '*'
    ensures RemoveBold(a + b) == a + RemoveBold(b)
  {
    if a != [] {
      var s := a + b;
      assert s[0] == a[0] != '*';
      assert s[1..] == a[1..] + b;
      assert RemoveBold(s) == [a[0]] + RemoveBold(a[1..] + b);
      RemoveBoldStarFree(a[1..], b);
      assert a == [a[0]] + a[1..];
    } else {
      assert a + b == b;
    }
  }

  /** So removing the bold markers twice is removing them once. */
  lemma RemoveBoldIdempotent(s: string)
    ensures RemoveBold(RemoveBold(s)) == RemoveBold(s)
  {
    RemoveBoldIsClean(s);
    RemoveBoldNoop(RemoveBold(s));
  }

  /** A slice of text without `**` has none either. */
  lemma NoBoldSlice(s: string, a: nat, b: nat)
    requires NoBold(s) && a <= b <= |s|
    ensures NoBold(s[a..b])
  {
    var t := s[a..b];
    forall i | 0 <= i < |t| - 1
      ensures !(t[i] == '*' && t[i + 1] == '*')
    {
      assert t[i] == s[a + i] && t[i + 1] == s[a + i + 1];
    }
  }
}
