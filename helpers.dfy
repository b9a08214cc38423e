/**
 * The pure utilities of the frontend helpers (helpers.js): text truncation,
 * word and character counts, the e-mail pattern and the password rules.
 */
module Helpers {
  import opened Js
  import opened Text

  /** `substring(0, n)` clamps a negative end to 0. */
  function ClampEnd(n: int, len: nat): (r: nat)
    ensures r <= len
    ensures 0 <= n <= len ==> r == n
  {
    if n < 0 then 0 else if n > len then len else n
  }

  /**
   * `truncateText(text, maxLength)`: a falsy text or one that fits is
   * returned as is; otherwise the first `maxLength` characters, trimmed,
   * followed by `...` (see `TruncateShape`).
   */
  function TruncateText(text: Option<string>, maxLength: int): (r: Option<string>)
    ensures !Given(text) ==> r == text
    ensures Given(text) && |text.value| <= maxLength ==> r == text
    ensures r.Some? <==> text.Some?
  {
    if !Given(text) || |text.value| <= maxLength then text
    else Some(Trim(text.value[..ClampEnd(maxLength, |text.value|)]) + "...")
  }

  /** `trim(s.substring(0, n))` as a slice of `s`: only whitespace around it is cut. */
  lemma TrimPrefix(s: string, n: nat)
    requires n <= |s|
    ensures var h := s[..n];
      TrimFrom(h) <= TrimTo(h) <= n
      && Trim(h) == s[TrimFrom(h)..TrimTo(h)]
      && AllSpace(s[..TrimFrom(h)]) && AllSpace(s[TrimTo(h)..n]) && IsTrimmed(Trim(h))
  {
    var h := s[..n];
    assert s[TrimFrom(h)..TrimTo(h)] == h[TrimFrom(h)..TrimTo(h)];
    assert s[..TrimFrom(h)] == h[..TrimFrom(h)];
    assert s[TrimTo(h)..n] == h[TrimTo(h)..];
  }

  /**
   * A text that does not fit becomes a trimmed prefix of at most
   * `maxLength` characters (none for a negative `maxLength`) followed by
   * `...`, so the result is never longer than `maxLength + 3`.
   */
  lemma TruncateShape(text: string, maxLength: int)
    requires text != "" && |text| > maxLength
    ensures var n := ClampEnd(maxLength, |text|);
      var r := TruncateText(Some(text), maxLength).value;
      |r| <= n + 3 && |r| >= 3 && r[|r| - 3..] == "..."
      && exists a, b :: 0 <= a <= b <= n && r == text[a..b] + "..."
           && AllSpace(text[..a]) && AllSpace(text[b..n]) && IsTrimmed(text[a..b])
  {
    var n := ClampEnd(maxLength, |text|);
    var h := text[..n];
    TrimPrefix(text, n);
    var a, b := TrimFrom(h), TrimTo(h);
    var r := TruncateText(Some(text), maxLength).value;
    assert r == text[a..b] + "...";
  }

  lemma TruncateExample()
    ensures TruncateText(Some("abcd e"), 5) == Some("abcd...")
  {
    var s := "abcd e";
    var head := s[..ClampEnd(5, |s|)];
    assert head == "abcd ";
    assert SpacesEnd(head, 0) == 0 && SpacesStart(head, 0, 5) == 4;
    assert Trim(head) == head[0..4] == "abcd";
    assert TruncateText(Some(s), 5) == Some(Trim(head) + "...");
    assert "abcd" + "..." == "abcd...";
  }

  /** Truncating a result again can cut it once more: the ellipsis counts toward the length. */
  lemma TruncateNotIdempotent()
    ensures TruncateText(TruncateText(Some("abcd e"), 5), 5) == Some("abcd....")
  {
    TruncateExample();
    var u := "abcd...";
    var head := u[..ClampEnd(5, |u|)];
    assert head == "abcd.";
    TrimNoop(head);
    assert Trim(head) + "..." == "abcd....";
  }

  // ----- Word count: `text.trim().split(/\s+/).filter(w => w.length > 0).length` -----

  /** `split(/\s+/)`, from the piece that starts at `start`, searching on from `p`. */
  function SplitWsFrom(s: string, start: nat, p: nat): seq<string>
    requires start <= p <= |s|
    decreases |s| - p
  {
    if p == |s| then [s[start..]]
    else if IsSpace(s[p]) then
      var e := SpacesEnd(s, p);
      [s[start..p]] + SplitWsFrom(s, e, e)
    else SplitWsFrom(s, start, p + 1)
  }

  function NonEmpty(ps: seq<string>): (r: seq<string>)
    ensures |r| <= |ps|
    ensures forall k :: 0 <= k < |r| ==> r[k] != ""
  {
    if ps == [] then [] else (if ps[0] != "" then [ps[0]] else []) + NonEmpty(ps[1..])
  }

  /** `getWordCount`: 0 for anything but a non-empty string. */
  function GetWordCount(text: Value): (r: nat)
    ensures !text.Str? ==> r == 0
  {
    if !Truthy(text) || !text.Str? then 0
    else |NonEmpty(SplitWsFrom(Trim(text.s), 0, 0))|
  }

  /** A word starts at `i`: a non-whitespace character at the start or after whitespace. */
  predicate WordStartAt(s: string, i: nat)
    requires i < |s|
  {
    !IsSpace(s[i]) && (i == 0 || IsSpace(s[i - 1]))
  }

  /** The number of words (maximal runs of non-whitespace) that start at `i` or later. */
  function StartsFrom(s: string, i: nat): nat
    requires i <= |s|
    decreases |s| - i
  {
    if i == |s| then 0 else (if WordStartAt(s, i) then 1 else 0) + StartsFrom(s, i + 1)
  }

  lemma {:induction false} StartsSkipSpaces(s: string, i: nat, e: nat)
    requires i <= e <= |s|
    requires forall k :: i <= k < e ==> IsSpace(s[k])
    ensures StartsFrom(s, i) == StartsFrom(s, e)
    decreases e - i
  {
    if i < e {
      StartsSkipSpaces(s, i + 1, e);
    }
  }

  lemma {:induction false} StartsSkipWord(s: string, i: nat, q: nat)
    requires 0 < i <= q <= |s|
    requires forall k :: i - 1 <= k < q ==> !IsSpace(s[k])
    ensures StartsFrom(s, i) == StartsFrom(s, q)
    decreases q - i
  {
    if i < q {
      StartsSkipWord(s, i + 1, q);
    }
  }

  lemma NonEmptyCons(x: string, rest: seq<string>)
    ensures |NonEmpty([x] + rest)| == (if x != "" then 1 else 0) + |NonEmpty(rest)|
  {
    assert ([x] + rest)[1..] == rest;
  }

  /** A run of non-whitespace that starts a word adds one word, or none when it is empty. */
  lemma WordPiece(s: string, start: nat, q: nat)
    requires start <= q <= |s|
    requires forall k :: start <= k < q ==> !IsSpace(s[k])
    requires start == 0 || IsSpace(s[start - 1])
    ensures StartsFrom(s, start) == (if start < q then 1 else 0) + StartsFrom(s, q)
  {
    if start < q {
      assert WordStartAt(s, start);
      StartsSkipWord(s, start + 1, q);
    }
  }

  /** The non-empty pieces of the split from `start` are the words that start there or later. */
  lemma {:induction false} SplitCountsWords(s: string, start: nat, p: nat)
    requires start <= p <= |s|
    requires forall k :: start <= k < p ==> !IsSpace(s[k])
    requires start == 0 || IsSpace(s[start - 1])
    ensures |NonEmpty(SplitWsFrom(s, start, p))| == StartsFrom(s, start)
    decreases |s| - p
  {
    if p == |s| {
      NonEmptyCons(s[start..], []);
      WordPiece(s, start, p);
    } else if IsSpace(s[p]) {
      var e := SpacesEnd(s, p);
      SplitCountsWords(s, e, e);
      NonEmptyCons(s[start..p], SplitWsFrom(s, e, e));
      WordPiece(s, start, p);
      StartsSkipSpaces(s, p, e);
    } else {
      SplitCountsWords(s, start, p + 1);
    }
  }

  /** Counting the words of a slice bounded by whitespace counts the same words in the whole text. */
  lemma {:induction false} StartsInSlice(s: string, a: nat, b: nat, i: nat)
    requires a <= b <= |s| && i <= b - a
    requires a == 0 || IsSpace(s[a - 1])
    requires forall k :: b <= k < |s| ==> IsSpace(s[k])
    ensures StartsFrom(s, a + i) == StartsFrom(s[a..b], i)
    decreases b - a - i
  {
    var t := s[a..b];
    if i == b - a {
      StartsSkipSpaces(s, b, |s|);
    } else {
      StartsInSlice(s, a, b, i + 1);
      assert s[a + i] == t[i];
      if i > 0 {
        assert s[a + i - 1] == t[i - 1];
      }
    }
  }

  /** What `trim` cuts off is whitespace, position by position. */
  lemma TrimCutsSpaces(s: string)
    ensures forall k :: 0 <= k < TrimFrom(s) ==> IsSpace(s[k])
    ensures forall k :: TrimTo(s) <= k < |s| ==> IsSpace(s[k])
  {
  }

  /**
   * The word count of a string is its number of maximal runs of
   * non-whitespace characters.
   */
  lemma WordCountIsRuns(s: string)
    ensures GetWordCount(Str(s)) == StartsFrom(s, 0)
  {
    if s != "" {
      var a, b := TrimFrom(s), TrimTo(s);
      assert GetWordCount(Str(s)) == |NonEmpty(SplitWsFrom(s[a..b], 0, 0))|;
      SplitCountsWords(s[a..b], 0, 0);
      TrimCutsSpaces(s);
      StartsInSlice(s, a, b, 0);
      StartsSkipSpaces(s, 0, a);
    }
  }

  lemma {:induction false} StartsPositive(s: string, i: nat, j: nat)
    requires i <= j < |s| && WordStartAt(s, j)
    ensures StartsFrom(s, i) >= 1
    decreases j - i
  {
    if i < j {
      StartsPositive(s, i + 1, j);
    }
  }

  /** No word exactly when the text is empty or only whitespace. */
  lemma WordCountZeroIff(s: string)
    ensures GetWordCount(Str(s)) == 0 <==> AllSpace(s)
  {
    WordCountIsRuns(s);
    if AllSpace(s) {
      StartsSkipSpaces(s, 0, |s|);
    } else {
      var j :| 0 <= j < |s| && !IsSpace(s[j]);
      FirstNonSpace(s, j);
    }
  }

  lemma {:induction false} FirstNonSpace(s: string, j: nat)
    requires j < |s| && !IsSpace(s[j])
    ensures StartsFrom(s, 0) >= 1
    decreases j
  {
    if j == 0 || IsSpace(s[j - 1]) {
      StartsPositive(s, 0, j);
    } else {
      FirstNonSpace(s, j - 1);
    }
  }

  /** `getCharacterCount`: the length of the text, 0 when there is none. */
  function GetCharacterCount(text: Option<string>): (r: nat)
    ensures text.None? ==> r == 0
    ensures text.Some? ==> r == |text.value|
  {
    if Given(text) then |text.value| else 0
  }

  lemma {:induction false} StartsAtMost(s: string, i: nat)
    requires i <= |s|
    ensures StartsFrom(s, i) <= |s| - i
    decreases |s| - i
  {
    if i < |s| {
      StartsAtMost(s, i + 1);
    }
  }

  /** A text never has more words than characters. */
  lemma WordsAtMostCharacters(s: string)
    ensures GetWordCount(Str(s)) <= GetCharacterCount(Some(s))
  {
    WordCountIsRuns(s);
    StartsAtMost(s, 0);
  }

  // ----- E-mail: `/^[^\s@]+@[^\s@]+\.[^\s@]+$/` -----

  /** A character of `[^\s@]`. */
  predicate Plain(c: char)
  {
    !IsSpace(c) && c != '@'
  }

  /** `[^\s@]+` matches exactly `s[a..b]`. */
  predicate PlainRun(s: string, a: nat, b: nat)
    requires a <= b <= |s|
  {
    a < b && forall k :: a <= k < b ==> Plain(s[k])
  }

  /** `isValidEmail`: the pattern matches the whole string, with `@` at `i` and the `.` at `j`. */
  predicate IsValidEmail(e: string)
  {
    exists i, j :: 0 < i && i + 1 < j && j + 1 < |e| && e[i] == '@' && e[j] == '.'
      && PlainRun(e, 0, i) && PlainRun(e, i + 1, j) && PlainRun(e, j + 1, |e|)
  }

  /** The only `@` of `e` is at `i`. */
  predicate OnlyAt(e: string, i: nat)
  {
    forall k :: 0 <= k < |e| && k != i ==> e[k] != '@'
  }

  /**
   * The shape of an accepted address: no whitespace, exactly one `@` with
   * something before it, and a `.` in the domain that is neither its first
   * nor its last character.
   */
  predicate EmailShape(e: string)
  {
    NoSpace(e)
    && exists i, j :: 0 < i && i + 1 < j && j + 1 < |e| && e[i] == '@' && OnlyAt(e, i) && e[j] == '.'
  }

  lemma EmailShapeIff(e: string)
    ensures IsValidEmail(e) <==> EmailShape(e)
  {
    if IsValidEmail(e) {
      var i, j :| 0 < i && i + 1 < j && j + 1 < |e| && e[i] == '@' && e[j] == '.'
        && PlainRun(e, 0, i) && PlainRun(e, i + 1, j) && PlainRun(e, j + 1, |e|);
      assert forall k :: 0 <= k < |e| && k != i && k != j ==> Plain(e[k]);
      assert NoSpace(e);
      assert OnlyAt(e, i);
    }
    if EmailShape(e) {
      var i, j :| 0 < i && i + 1 < j && j + 1 < |e| && e[i] == '@' && OnlyAt(e, i) && e[j] == '.';
      assert forall k :: 0 <= k < |e| && k != i ==> Plain(e[k]);
      assert PlainRun(e, 0, i) && PlainRun(e, i + 1, j) && PlainRun(e, j + 1, |e|);
    }
  }

  lemma EmailExamples()
    ensures IsValidEmail("a@b.c")
    ensures !IsValidEmail("a@b")
    ensures !IsValidEmail("a@@b.c")
    ensures !IsValidEmail("a b@c.d")
  {
    var e := "a@b.c";
    assert e[1] == '@' && e[3] == '.' && PlainRun(e, 0, 1) && PlainRun(e, 2, 3) && PlainRun(e, 4, 5);
    EmailShapeIff("a@b");
    EmailShapeIff("a@@b.c");
    assert "a@@b.c"[1] == '@' && "a@@b.c"[2] == '@';
    EmailShapeIff("a b@c.d");
    assert IsSpace("a b@c.d"[1]);
  }

  // ----- Password rules -----

  const PasswordRequired := "Password is required"
  const PasswordTooShort := "Password must be at least 6 characters long"
  const PasswordNoLower := "Password must contain at least one lowercase letter"
  const PasswordNoUpper := "Password must contain at least one uppercase letter"
  const PasswordNoDigit := "Password must contain at least one number"

  predicate HasLower(s: string)
  {
    exists k :: 0 <= k < |s| && 'a' <= s[k] <= 'z'
  }

  predicate HasUpper(s: string)
  {
    exists k :: 0 <= k < |s| && 'A' <= s[k] <= 'Z'
  }

  predicate HasDigit(s: string)
  {
    exists k :: 0 <= k < |s| && '0' <= s[k] <= '9'
  }

  /** A password that passes every rule. */
  predicate Strong(s: string)
  {
    |s| >= 6 && HasLower(s) && HasUpper(s) && HasDigit(s)
  }

  /** The four strength rules, in the order they are checked. */
  datatype PasswordRule = MinLength | Lowercase | Uppercase | Digit

  const Rules: seq<PasswordRule> := [MinLength, Lowercase, Uppercase, Digit]

  predicate Passes(rule: PasswordRule, s: string)
  {
    match rule
    case MinLength => |s| >= 6
    case Lowercase => HasLower(s)
    case Uppercase => HasUpper(s)
    case Digit => HasDigit(s)
  }

  function Message(rule: PasswordRule): string
  {
    match rule
    case MinLength => PasswordTooShort
    case Lowercase => PasswordNoLower
    case Uppercase => PasswordNoUpper
    case Digit => PasswordNoDigit
  }

  function Position(rule: PasswordRule): nat
  {
    match rule
    case MinLength => 0
    case Lowercase => 1
    case Uppercase => 2
    case Digit => 3
  }

  /** The rule, if `s` fails it. */
  function Step(rule: PasswordRule, s: string): seq<PasswordRule>
  {
    if Passes(rule, s) then [] else [rule]
  }

  /** The rules of `rules` that `s` fails, in order. */
  function Failing(rules: seq<PasswordRule>, s: string): (r: seq<PasswordRule>)
    ensures |r| <= |rules|
  {
    if rules == [] then []
    else Step(rules[0], s) + Failing(rules[1..], s)
  }

  /** A rule is among the failed ones exactly when it is checked and the password breaks it. */
  lemma {:induction false} FailingMembers(rules: seq<PasswordRule>, s: string)
    ensures forall x :: x in Failing(rules, s) <==> x in rules && !Passes(x, s)
  {
    if rules != [] {
      FailingMembers(rules[1..], s);
      assert rules == [rules[0]] + rules[1..];
    }
  }

  function Messages(rules: seq<PasswordRule>): (r: seq<string>)
    ensures |r| == |rules|
    ensures forall k :: 0 <= k < |rules| ==> r[k] == Message(rules[k])
  {
    seq(|rules|, k requires 0 <= k < |rules| => Message(rules[k]))
  }

  /** Different rules have different messages, so a message names its rule. */
  lemma MessageNamesRule(a: PasswordRule, b: PasswordRule)
    ensures Message(a) == Message(b) <==> a == b
    ensures Message(a) != PasswordRequired
  {
    assert |PasswordRequired| == 20 && |PasswordTooShort| == 43 && |PasswordNoLower| == 51;
    assert |PasswordNoUpper| == 51 && |PasswordNoDigit| == 41;
    assert PasswordNoLower[36] != PasswordNoUpper[36];
  }

  /** A sequence of rules in the order they are checked, each at most once. */
  predicate InCheckOrder(rules: seq<PasswordRule>)
  {
    forall a, b :: 0 <= a < b < |rules| ==> Position(rules[a]) < Position(rules[b])
  }

  /** In a sequence in check order, the first rule comes before every later one. */
  lemma HeadComesFirst(rules: seq<PasswordRule>)
    requires InCheckOrder(rules) && rules != []
    ensures forall x :: x in rules[1..] ==> Position(rules[0]) < Position(x)
  {
    forall x | x in rules[1..]
      ensures Position(rules[0]) < Position(x)
    {
      var i :| 0 <= i < |rules[1..]| && rules[1..][i] == x;
      assert rules[i + 1] == x;
    }
  }

  /** A rule checked before every rule of a sequence in check order can go in front of it. */
  lemma ConsInCheckOrder(h: PasswordRule, rest: seq<PasswordRule>)
    requires InCheckOrder(rest)
    requires forall x :: x in rest ==> Position(h) < Position(x)
    ensures InCheckOrder([h] + rest)
  {
    var r := [h] + rest;
    forall a, b | 0 <= a < b < |r|
      ensures Position(r[a]) < Position(r[b])
    {
      assert r[b] == rest[b - 1];
      if a > 0 {
        assert r[a] == rest[a - 1];
      }
    }
  }

  lemma {:induction false} FailingKeepsOrder(rules: seq<PasswordRule>, s: string)
    requires InCheckOrder(rules)
    ensures InCheckOrder(Failing(rules, s))
  {
    if rules != [] {
      var tail := rules[1..];
      assert InCheckOrder(tail) by {
        forall a, b | 0 <= a < b < |tail|
          ensures Position(tail[a]) < Position(tail[b])
        {
          assert tail[a] == rules[a + 1] && tail[b] == rules[b + 1];
        }
      }
      FailingKeepsOrder(tail, s);
      if !Passes(rules[0], s) {
        FailingMembers(tail, s);
        HeadComesFirst(rules);
        ConsInCheckOrder(rules[0], Failing(tail, s));
      } else {
        assert Failing(rules, s) == Failing(tail, s);
      }
    }
  }

  /** Every rule is among the rules checked. */
  lemma AllRulesChecked(x: PasswordRule)
    ensures x in Rules
  {
    assert x == Rules[Position(x)];
  }

  /**
   * The failed rules of a password: each rule exactly when the password
   * breaks it, in the order the rules are checked.
   */
  lemma FailedRules(s: string)
    ensures forall x :: x in Failing(Rules, s) <==> !Passes(x, s)
    ensures InCheckOrder(Failing(Rules, s))
  {
    FailingKeepsOrder(Rules, s);
    FailingMembers(Rules, s);
    forall x: PasswordRule
      ensures x in Rules
    {
      AllRulesChecked(x);
    }
  }

  /** No rule fails exactly when the password is strong. */
  lemma NoFailedRuleIffStrong(s: string)
    ensures Failing(Rules, s) == [] <==> Strong(s)
  {
    FailingUnfolds(s);
  }

  lemma FailingUnfolds(s: string)
    ensures Failing(Rules, s) == Step(MinLength, s) + Step(Lowercase, s) + Step(Uppercase, s) + Step(Digit, s)
  {
    var r0 := Rules;
    var r1 := [Lowercase, Uppercase, Digit];
    var r2 := [Uppercase, Digit];
    var r3 := [Digit];
    assert r0[0] == MinLength && r0[1..] == r1;
    assert r1[0] == Lowercase && r1[1..] == r2;
    assert r2[0] == Uppercase && r2[1..] == r3;
    assert r3[0] == Digit && r3[1..] == [];
    assert Failing(r3, s) == Step(Digit, s) + Failing([], s);
    assert Failing(r2, s) == Step(Uppercase, s) + Failing(r3, s);
    assert Failing(r1, s) == Step(Lowercase, s) + Failing(r2, s);
    assert Failing(r0, s) == Step(MinLength, s) + Failing(r1, s);
  }

  /** The messages of a concatenation are the concatenated messages. */
  lemma MessagesAppend(a: seq<PasswordRule>, b: seq<PasswordRule>)
    ensures Messages(a + b) == Messages(a) + Messages(b)
  {
    assert forall k :: 0 <= k < |b| ==> (a + b)[|a| + k] == b[k];
  }

  /** One rule's contribution: its message if the password breaks it, and nothing otherwise. */
  lemma MessagesOfStep(rule: PasswordRule, s: string)
    ensures Passes(rule, s) ==> Messages(Step(rule, s)) == []
    ensures !Passes(rule, s) ==> Messages(Step(rule, s)) == [Message(rule)]
  {
  }

  /** The list `validatePassword` returns, as a function of the password. */
  function PasswordErrors(password: Option<string>): seq<string>
  {
    if !Given(password) then [PasswordRequired] else Messages(Failing(Rules, password.value))
  }

  /** No message at all exactly for a strong password. */
  lemma PasswordErrorsEmptyIff(password: Option<string>)
    ensures PasswordErrors(password) == [] <==> Given(password) && Strong(password.value)
  {
    if Given(password) {
      NoFailedRuleIffStrong(password.value);
    }
  }

  /**
   * `validatePassword`: only the "required" message for a missing or empty
   * password; otherwise the message of each failed rule, in the order the
   * rules are checked (see `FailedRules`).
   */
  method ValidatePassword(password: Option<string>) returns (errors: seq<string>)
    ensures !Given(password) ==> errors == [PasswordRequired]
    ensures errors == PasswordErrors(password)
  {
    if !Given(password) {
      return [PasswordRequired];
    }
    var s := password.value;
    errors := [];
    ghost var failed: seq<PasswordRule> := [];
    if |s| < 6 {
      errors := errors + [PasswordTooShort];
    }
    MessagesOfStep(MinLength, s);
    MessagesAppend(failed, Step(MinLength, s));
    failed := failed + Step(MinLength, s);
    assert errors == Messages(failed);
    if !HasLower(s) {
      errors := errors + [PasswordNoLower];
    }
    MessagesOfStep(Lowercase, s);
    MessagesAppend(failed, Step(Lowercase, s));
    failed := failed + Step(Lowercase, s);
    assert errors == Messages(failed);
    if !HasUpper(s) {
      errors := errors + [PasswordNoUpper];
    }
    MessagesOfStep(Uppercase, s);
    MessagesAppend(failed, Step(Uppercase, s));
    failed := failed + Step(Uppercase, s);
    assert errors == Messages(failed);
    if !HasDigit(s) {
      errors := errors + [PasswordNoDigit];
    }
    MessagesOfStep(Digit, s);
    MessagesAppend(failed, Step(Digit, s));
    failed := failed + Step(Digit, s);
    assert errors == Messages(failed);
    FailingUnfolds(s);
    assert failed == Failing(Rules, s);
  }
}
