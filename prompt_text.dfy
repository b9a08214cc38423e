/**
 * The pure parts of the prompt generator (promptController.js): choosing the
 * system instruction for a genre, the two cleaning pipelines applied to the
 * generated text, and the splitter that cuts a numbered list into prompts.
 */
module PromptText {
  import opened Text
  import Js

  const Model := "meta/llama-3.1-70b-instruct"

  /** The instruction used for any genre the catalogue does not name. */
  const GenericInstruction :=
    "You are a creative writing assistant. Generate engaging, original writing prompts."

  /** The genres of the catalogue. */
  datatype Genre = Fantasy | SciFi | Mystery | Romance | Horror | Adventure | Historical | Contemporary | Thriller | Drama

  /** The catalogue key of a genre, its lower-case name. */
  function Key(g: Genre): string
  {
    match g
    case Fantasy => "fantasy"
    case SciFi => "sci-fi"
    case Mystery => "mystery"
    case Romance => "romance"
    case Horror => "horror"
    case Adventure => "adventure"
    case Historical => "historical"
    case Contemporary => "contemporary"
    case Thriller => "thriller"
    case Drama => "drama"
  }

  /** The catalogue lookup: the genre whose key is `key`, if any. */
  function Lookup(key: string): (r: Js.Option<Genre>)
    ensures r.Some? ==> Key(r.value) == key
  {
    if key == "fantasy" then Js.Some(Fantasy)
    else if key == "sci-fi" then Js.Some(SciFi)
    else if key == "mystery" then Js.Some(Mystery)
    else if key == "romance" then Js.Some(Romance)
    else if key == "horror" then Js.Some(Horror)
    else if key == "adventure" then Js.Some(Adventure)
    else if key == "historical" then Js.Some(Historical)
    else if key == "contemporary" then Js.Some(Contemporary)
    else if key == "thriller" then Js.Some(Thriller)
    else if key == "drama" then Js.Some(Drama)
    else Js.None
  }

  /** The catalogue entry of a genre. */
  function Instruction(g: Genre): string
  {
    match g
    case Fantasy =>
      "You are a creative writing assistant specializing in fantasy literature. Generate engaging, original writing prompts with magical elements, mythical creatures, or fantastical worlds."
    case SciFi =>
      "You are a creative writing assistant specializing in science fiction. Generate engaging, original writing prompts exploring futuristic technology, space exploration, or scientific concepts."
    case Mystery =>
      "You are a creative writing assistant specializing in mystery and thriller genres. Generate engaging, original writing prompts with suspense, intrigue, and compelling puzzles."
    case Romance =>
      "You are a creative writing assistant specializing in romance. Generate engaging, original writing prompts focusing on relationships, emotions, and romantic tension."
    case Horror =>
      "You are a creative writing assistant specializing in horror. Generate engaging, original writing prompts that create tension, fear, and supernatural or psychological dread."
    case Adventure =>
      "You are a creative writing assistant specializing in adventure stories. Generate engaging, original writing prompts featuring exploration, quests, and exciting challenges."
    case Historical =>
      "You are a creative writing assistant specializing in historical fiction. Generate engaging, original writing prompts set in a specific historical period with authentic details."
    case Contemporary =>
      "You are a creative writing assistant specializing in contemporary fiction. Generate engaging, original writing prompts set in modern times with relatable, realistic situations."
    case Thriller =>
      "You are a creative writing assistant specializing in thrillers. Generate engaging, original writing prompts with high stakes, tension, and an exciting pace."
    case Drama =>
      "You are a creative writing assistant specializing in dramatic fiction. Generate engaging, original writing prompts focusing on complex emotions, relationships, and meaningful conflicts."
  }

  /**
   * The system instruction for a genre: the catalogue entry of the
   * lower-cased genre, or the generic instruction. No genre is rejected,
   * and the generic instruction is chosen exactly when the catalogue has
   * no entry.
   */
  function SystemInstruction(genre: string): (r: string)
    ensures Lookup(ToLower(genre)).Some? ==> r == Instruction(Lookup(ToLower(genre)).value)
    ensures Lookup(ToLower(genre)).None? ==> r == GenericInstruction
  {
    match Lookup(ToLower(genre))
    case Some(g) => Instruction(g)
    case None => GenericInstruction
  }

  /** Every genre of the catalogue is found under its own key. */
  lemma LookupComplete(g: Genre)
    ensures Lookup(Key(g)) == Js.Some(g)
  {
    match g
    case Fantasy =>
    case SciFi =>
    case Mystery =>
    case Romance =>
    case Horror =>
    case Adventure =>
    case Historical =>
    case Contemporary =>
    case Thriller =>
    case Drama =>
  }

  /** The catalogue answers a genre for exactly one key, the genre's own. */
  lemma LookupIff(key: string, g: Genre)
    ensures Lookup(key) == Js.Some(g) <==> key == Key(g)
  {
    LookupComplete(g);
  }

  /** The catalogue keys are lower case, so `toLowerCase` leaves them alone. */
  lemma KeyIsLowerCase(g: Genre)
    ensures ToLower(Key(g)) == Key(g)
  {
    var k := Key(g);
    assert forall i :: 0 <= i < |k| ==> !('A' <= k[i] <= 'Z');
  }

  /**
   * Every genre whose lower-cased form is a catalogue key gets that
   * catalogue entry; in particular each key gets its own entry.
   */
  lemma InstructionForCatalogue(genre: string, g: Genre)
    ensures ToLower(genre) == Key(g) ==> SystemInstruction(genre) == Instruction(g)
    ensures SystemInstruction(Key(g)) == Instruction(g)
  {
    LookupComplete(g);
    KeyIsLowerCase(g);
  }

  /** The lookup ignores the case of the genre. */
  lemma InstructionIgnoresCase(genre: string)
    ensures SystemInstruction(genre) == SystemInstruction(ToLower(genre))
  {
    ToLowerIdempotent(genre);
  }

  /** Capitalised genre names reach their catalogue entry. */
  lemma InstructionForCapitalised()
    ensures SystemInstruction("Fantasy") == Instruction(Fantasy)
  {
    assert ToLower("Fantasy") == "fantasy";
    assert Lookup("fantasy") == Js.Some(Fantasy);
  }

  lemma InstructionForUpperCase()
    ensures SystemInstruction("SCI-FI") == Instruction(SciFi)
  {
    assert ToLower("SCI-FI") == "sci-fi";
    assert Lookup("sci-fi") == Js.Some(SciFi);
  }

  /** A genre outside the catalogue gets the generic instruction. */
  lemma InstructionForUnknown()
    ensures SystemInstruction("Western") == GenericInstruction
  {
    assert ToLower("Western") == "western";
    assert Lookup("western") == Js.None;
  }

  predicate IsQuote(c: char)
  {
    c == '"' || c == '\''
  }

  /**
   * The global replacement of a leading or a trailing quote: at most one
   * `"` or `'` is removed from each end.
   */
  function StripQuotes(s: string): (r: string)
  {
    var t := if s != [] && IsQuote(s[0]) then s[1..] else s;
    if t != [] && IsQuote(t[|t| - 1]) then t[..|t| - 1] else t
  }

  /** What the quote removal takes away: at most one character at each end, and only a quote. */
  lemma StripQuotesRemovesOnlyEndQuotes(s: string)
    ensures |s| - 2 <= |StripQuotes(s)| <= |s|
    ensures var a := if s != [] && IsQuote(s[0]) then 1 else 0;
      a + |StripQuotes(s)| <= |s| && StripQuotes(s) == s[a..a + |StripQuotes(s)|]
      && (a + |StripQuotes(s)| < |s| ==> IsQuote(s[|s| - 1]))
    ensures s != [] && !IsQuote(s[0]) && !IsQuote(s[|s| - 1]) ==> StripQuotes(s) == s
  {
  }

  /** Doubled quotes lose only their outer layer. */
  lemma StripQuotesOneLayer()
    ensures StripQuotes("''x''") == "'x'"
    ensures StripQuotes("\"") == ""
  {
  }

  /**
   * Cleaning in `generatePrompt`: trim, drop one quote at each end, delete
   * every `**`, trim again.
   */
  function CleanSingle(raw: string): string
  {
    Trim(RemoveBold(StripQuotes(Trim(raw))))
  }

  /** The single-prompt result carries no `**` and no surrounding whitespace. */
  lemma CleanSingleIsClean(raw: string)
    ensures NoBold(CleanSingle(raw))
    ensures IsTrimmed(CleanSingle(raw))
  {
    var b := RemoveBold(StripQuotes(Trim(raw)));
    RemoveBoldIsClean(StripQuotes(Trim(raw)));
    NoBoldSlice(b, TrimFrom(b), TrimTo(b));
  }

  /** `"x"` wrapped in bold markers: it is already trimmed and has no quote at either end. */
  lemma BoldQuotedIsTrimmed()
    ensures Trim("**\"x\"**") == "**\"x\"**"
    ensures StripQuotes("**\"x\"**") == "**\"x\"**"
  {
    var s := "**\"x\"**";
    assert s[0] == '*' && s[6] == '*';
    TrimNoop(s);
  }

  lemma BoldQuotedUnbolded()
    ensures RemoveBold("**\"x\"**") == "\"x\""
  {
    var s := "**\"x\"**";
    var q := "\"x\"";
    assert s[2..] == q + "**";
    assert s[0] == '*' && s[1] == '*';
    assert q[0] == '"' && q[1] == 'x' && q[2] == '"';
    RemoveBoldStarFree(q, "**");
    assert RemoveBold("**") == RemoveBold("");
  }

  lemma QuotedIsTrimmed()
    ensures Trim("\"x\"") == "\"x\""
  {
    var q := "\"x\"";
    assert q[0] == '"' && q[2] == '"';
    TrimNoop(q);
  }

  /** Quotes inside the bold markers survive: the quotes are removed before the `**`. */
  lemma CleanSingleQuotesMaySurvive()
    ensures CleanSingle("**\"x\"**") == "\"x\""
  {
    BoldQuotedIsTrimmed();
    BoldQuotedUnbolded();
    QuotedIsTrimmed();
  }

  /**
   * Cleaning in `generatePromptStream`, applied to the concatenated
   * fragments: trim, drop one quote at each end, delete every `**`; there
   * is no second trim.
   */
  function CleanStreamed(full: string): string
  {
    RemoveBold(StripQuotes(Trim(full)))
  }

  lemma TrailingBoldUnbolded()
    ensures Trim("a **") == "a **" && StripQuotes("a **") == "a **"
    ensures RemoveBold("a **") == "a "
  {
    var s := "a **";
    var a := "a ";
    assert s == a + "**";
    assert s[0] == 'a' && s[3] == '*' && a[0] == 'a' && a[1] == ' ';
    TrimNoop(s);
    RemoveBoldStarFree(a, "**");
    assert RemoveBold("**") == RemoveBold("");
  }

  lemma TrailingSpaceTrimmed()
    ensures Trim("a ") == "a"
  {
    assert SpacesEnd("a ", 0) == 0;
    assert SpacesStart("a ", 0, 2) == 1;
  }

  /** The streamed result carries no `**`, but unlike the single path it may end in whitespace. */
  lemma CleanStreamedMayEndInSpace()
    ensures NoBold(CleanStreamed("a **"))
    ensures CleanStreamed("a **") == "a "
    ensures CleanSingle("a **") == "a"
  {
    TrailingBoldUnbolded();
    TrailingSpaceTrimmed();
    RemoveBoldIsClean("a **");
  }

  /** Cleaning of one item of a batch: trim and drop one quote at each end; `**` stays. */
  function CleanBatchItem(p: string): string
  {
    StripQuotes(Trim(p))
  }

  lemma CleanBatchItemKeepsBold()
    ensures CleanBatchItem(" **Bold** ") == "**Bold**"
  {
    var s := " **Bold** ";
    assert s[0] == ' ' && s[1] == '*' && s[8] == '*' && s[9] == ' ';
    assert s[1..9] == "**Bold**";
    assert SpacesEnd(s, 0) == 1;
    assert SpacesStart(s, 1, |s|) == |s| - 1;
  }

  // ----- Splitting a numbered list: `split(/\d+\.\s+/)` -----

  predicate IsDigit(c: char)
  {
    '0' <= c <= '9'
  }

  /** The end of the run of digits that starts at `i`. */
  function DigitsEnd(s: string, i: nat): (r: nat)
    requires i <= |s|
    ensures i <= r <= |s|
    ensures forall k :: i <= k < r ==> IsDigit(s[k])
    ensures r < |s| ==> !IsDigit(s[r])
    decreases |s| - i
  {
    if i < |s| && IsDigit(s[i]) then DigitsEnd(s, i + 1) else i
  }

  /**
   * The end of the match of `\d+\.\s+` that starts exactly at `p`, if any.
   * The greedy `\d+` can only succeed on the whole run of digits (a shorter
   * run is followed by a digit, not a dot), and `\s+` takes the whole run of
   * whitespace.
   */
  function SeparatorAt(s: string, p: nat): (r: Js.Option<nat>)
    requires p <= |s|
    ensures r.Some? ==> p < r.value <= |s|
  {
    if p < |s| && IsDigit(s[p]) then
      var d := DigitsEnd(s, p);
      if d + 1 < |s| && s[d] == '.' && IsSpace(s[d + 1]) then Js.Some(SpacesEnd(s, d + 1)) else Js.None
    else Js.None
  }

  predicate SeparatorFree(t: string)
  {
    forall i :: 0 <= i <= |t| ==> SeparatorAt(t, i).None?
  }

  /**
   * `String.prototype.split` with the separator regex, from the piece that
   * starts at `start`, searching for the next match at `p` onwards.
   */
  function SplitFrom(s: string, start: nat, p: nat): seq<string>
    requires start <= p <= |s|
    decreases |s| - p
  {
    if p == |s| then [s[start..]]
    else
      var m := SeparatorAt(s, p);
      if m.Some? then [s[start..p]] + SplitFrom(s, m.value, m.value)
      else SplitFrom(s, start, p + 1)
  }

  function SplitNumbered(s: string): seq<string>
  {
    SplitFrom(s, 0, 0)
  }

  /** A match that fits inside a slice is also a match in the whole text. */
  lemma SeparatorInSlice(s: string, a: nat, b: nat, i: nat)
    requires a <= b <= |s| && i <= b - a
    requires SeparatorAt(s[a..b], i).Some?
    ensures SeparatorAt(s, a + i).Some?
  {
    var t := s[a..b];
    var d := DigitsEnd(t, i);
    assert t[d] == '.' && IsSpace(t[d + 1]);
    assert forall k :: i <= k < d ==> s[a + k] == t[k];
    assert !IsDigit(s[a + d]);
    assert forall k :: a + i <= k < a + d ==> IsDigit(s[k]) by {
      forall k | a + i <= k < a + d ensures IsDigit(s[k]) {
        assert s[k] == t[k - a];
      }
    }
    assert s[a + d] == t[d] && s[a + d + 1] == t[d + 1];
  }

  lemma {:induction false} SplitFromPiecesAreFree(s: string, start: nat, p: nat)
    requires start <= p <= |s|
    requires forall j :: start <= j < p ==> SeparatorAt(s, j).None?
    ensures forall k :: 0 <= k < |SplitFrom(s, start, p)| ==> SeparatorFree(SplitFrom(s, start, p)[k])
    decreases |s| - p
  {
    var piece := s[start..p];
    forall i | 0 <= i <= |piece|
      ensures SeparatorAt(piece, i).None?
    {
      if SeparatorAt(piece, i).Some? {
        SeparatorInSlice(s, start, p, i);
      }
    }
    assert SeparatorFree(piece);
    if p == |s| {
      assert piece == s[start..];
      assert SplitFrom(s, start, p) == [s[start..]];
    } else {
      var m := SeparatorAt(s, p);
      if m.Some? {
        SplitFromPiecesAreFree(s, m.value, m.value);
        assert SplitFrom(s, start, p) == [piece] + SplitFrom(s, m.value, m.value);
      } else {
        SplitFromPiecesAreFree(s, start, p + 1);
      }
    }
  }

  /** No piece of the split still contains a `digits . whitespace` separator. */
  lemma SplitPiecesAreSeparatorFree(s: string)
    ensures forall k :: 0 <= k < |SplitNumbered(s)| ==> SeparatorFree(SplitNumbered(s)[k])
  {
    SplitFromPiecesAreFree(s, 0, 0);
  }

  lemma {:induction false} SplitFromWithoutSeparator(s: string, start: nat, p: nat)
    requires start <= p <= |s|
    requires forall j :: p <= j <= |s| ==> SeparatorAt(s, j).None?
    ensures SplitFrom(s, start, p) == [s[start..]]
    decreases |s| - p
  {
    if p < |s| {
      SplitFromWithoutSeparator(s, start, p + 1);
    }
  }

  /** Text without a separator is one piece, itself. */
  lemma SplitWithoutSeparator(s: string)
    requires SeparatorFree(s)
    ensures SplitNumbered(s) == [s]
  {
    SplitFromWithoutSeparator(s, 0, 0);
  }

  /** The blank pieces are dropped (`p.trim().length > 0`): every other piece is kept. */
  function NonBlank(ps: seq<string>): (r: seq<string>)
    ensures |r| <= |ps|
    ensures forall k :: 0 <= k < |r| ==> Trim(r[k]) != ""
    ensures forall k :: 0 <= k < |r| ==> r[k] in ps
    ensures forall i :: 0 <= i < |ps| && Trim(ps[i]) != "" ==> ps[i] in r
  {
    if ps == [] then []
    else if Trim(ps[0]) != "" then [ps[0]] + NonBlank(ps[1..])
    else NonBlank(ps[1..])
  }

  /** The filter keeps the order of the pieces: those of a prefix come first. */
  lemma {:induction false} NonBlankAppend(a: seq<string>, b: seq<string>)
    ensures NonBlank(a + b) == NonBlank(a) + NonBlank(b)
  {
    if a == [] {
      assert a + b == b;
    } else {
      assert (a + b)[0] == a[0];
      assert (a + b)[1..] == a[1..] + b;
      NonBlankAppend(a[1..], b);
    }
  }

  /** Pieces that are all non-blank pass the filter unchanged. */
  lemma {:induction false} NonBlankKeepsAll(ps: seq<string>)
    requires forall i :: 0 <= i < |ps| ==> Trim(ps[i]) != ""
    ensures NonBlank(ps) == ps
  {
    if ps != [] {
      NonBlankKeepsAll(ps[1..]);
    }
  }

  function CleanEach(ps: seq<string>): (r: seq<string>)
    ensures |r| == |ps|
    ensures forall k :: 0 <= k < |ps| ==> r[k] == CleanBatchItem(ps[k])
  {
    if ps == [] then [] else [CleanBatchItem(ps[0])] + CleanEach(ps[1..])
  }

  /** The prompts of a batch reply: split, drop blank pieces, trim and unquote each. */
  function BatchPrompts(content: string): seq<string>
  {
    CleanEach(NonBlank(SplitNumbered(Trim(content))))
  }

  /**
   * The batch prompts are the non-blank pieces of the split of the trimmed
   * reply, one for one and in order, each trimmed and then unquoted; every
   * non-blank piece gives a prompt.
   */
  lemma BatchPromptsShape(content: string)
    ensures |BatchPrompts(content)| == |NonBlank(SplitNumbered(Trim(content)))|
    ensures forall k :: 0 <= k < |BatchPrompts(content)| ==>
      BatchPrompts(content)[k] == StripQuotes(Trim(NonBlank(SplitNumbered(Trim(content)))[k]))
    ensures forall k :: 0 <= k < |BatchPrompts(content)| ==>
      NonBlank(SplitNumbered(Trim(content)))[k] in SplitNumbered(Trim(content))
    ensures forall i :: 0 <= i < |SplitNumbered(Trim(content))| && Trim(SplitNumbered(Trim(content))[i]) != "" ==>
      SplitNumbered(Trim(content))[i] in NonBlank(SplitNumbered(Trim(content)))
  {
  }

  // ----- The split loses nothing: the pieces and the matched separators rejoin to the text -----

  /** The separators matched by the split from `p` onwards, in order. */
  function SeparatorsFrom(s: string, p: nat): seq<string>
    requires p <= |s|
    decreases |s| - p
  {
    if p == |s| then []
    else
      var m := SeparatorAt(s, p);
      if m.Some? then [s[p..m.value]] + SeparatorsFrom(s, m.value)
      else SeparatorsFrom(s, p + 1)
  }

  /** The pieces with the separators put back between them. */
  function Interleave(ps: seq<string>, seps: seq<string>): string
    requires |ps| == |seps| + 1
  {
    if seps == [] then ps[0] else ps[0] + seps[0] + Interleave(ps[1..], seps[1..])
  }

  lemma {:induction false} SplitFromRejoins(s: string, start: nat, p: nat)
    requires start <= p <= |s|
    ensures |SplitFrom(s, start, p)| == |SeparatorsFrom(s, p)| + 1
    ensures Interleave(SplitFrom(s, start, p), SeparatorsFrom(s, p)) == s[start..]
    decreases |s| - p
  {
    if p < |s| {
      var m := SeparatorAt(s, p);
      if m.Some? {
        var q := m.value;
        SplitFromRejoins(s, q, q);
        var ps := SplitFrom(s, q, q);
        var seps := SeparatorsFrom(s, q);
        assert SplitFrom(s, start, p) == [s[start..p]] + ps;
        assert SeparatorsFrom(s, p) == [s[p..q]] + seps;
        assert ([s[start..p]] + ps)[1..] == ps;
        assert ([s[p..q]] + seps)[1..] == seps;
        assert s[start..] == s[start..p] + s[p..q] + s[q..];
      } else {
        SplitFromRejoins(s, start, p + 1);
      }
    }
  }

  lemma {:induction false} DigitsEndSlice(s: string, a: nat, b: nat, i: nat)
    requires a <= i <= b <= |s| && DigitsEnd(s, i) <= b
    ensures DigitsEnd(s[a..b], i - a) == DigitsEnd(s, i) - a
    decreases |s| - i
  {
    if i < b && IsDigit(s[i]) {
      assert s[a..b][i - a] == s[i];
      DigitsEndSlice(s, a, b, i + 1);
    } else if i < b {
      assert s[a..b][i - a] == s[i];
    }
  }

  lemma {:induction false} SpacesEndSlice(s: string, a: nat, b: nat, i: nat)
    requires a <= i <= b <= |s| && SpacesEnd(s, i) <= b
    ensures SpacesEnd(s[a..b], i - a) == SpacesEnd(s, i) - a
    decreases |s| - i
  {
    if i < b && IsSpace(s[i]) {
      assert s[a..b][i - a] == s[i];
      SpacesEndSlice(s, a, b, i + 1);
    } else if i < b {
      assert s[a..b][i - a] == s[i];
    }
  }

  /** The text a match covers is, on its own, exactly one whole match. */
  lemma SeparatorIsWholeMatch(s: string, p: nat)
    requires p <= |s| && SeparatorAt(s, p).Some?
    ensures SeparatorAt(s[p..SeparatorAt(s, p).value], 0) == Js.Some(SeparatorAt(s, p).value - p)
  {
    var q := SeparatorAt(s, p).value;
    var t := s[p..q];
    var d := DigitsEnd(s, p);
    DigitsEndSlice(s, p, q, p);
    SpacesEndSlice(s, p, q, d + 1);
    assert t[0] == s[p] && t[d - p] == s[d] && t[d - p + 1] == s[d + 1];
  }

  /** Every separator the split cuts out is a whole `digits . whitespace` match. */
  lemma {:induction false} SeparatorsAreMatches(s: string, p: nat)
    requires p <= |s|
    ensures forall k :: 0 <= k < |SeparatorsFrom(s, p)| ==>
      SeparatorAt(SeparatorsFrom(s, p)[k], 0) == Js.Some(|SeparatorsFrom(s, p)[k]|)
    decreases |s| - p
  {
    if p < |s| {
      var m := SeparatorAt(s, p);
      if m.Some? {
        SeparatorIsWholeMatch(s, p);
        SeparatorsAreMatches(s, m.value);
      } else {
        SeparatorsAreMatches(s, p + 1);
      }
    }
  }

  /** Putting the matched separators back between the pieces gives the text again. */
  lemma SplitRejoins(s: string)
    ensures |SplitNumbered(s)| == |SeparatorsFrom(s, 0)| + 1
    ensures Interleave(SplitNumbered(s), SeparatorsFrom(s, 0)) == s
    ensures forall k :: 0 <= k < |SeparatorsFrom(s, 0)| ==>
      SeparatorAt(SeparatorsFrom(s, 0)[k], 0) == Js.Some(|SeparatorsFrom(s, 0)[k]|)
  {
    SplitFromRejoins(s, 0, 0);
    SeparatorsAreMatches(s, 0);
    assert s[0..] == s;
  }

  /** A numbered reply of three items. */
  const NumberedReply := "1. A.\n2. B.\n3. C."

  lemma NumberedReplyFirstItem()
    ensures SeparatorAt(NumberedReply, 0) == Js.Some(3)
    ensures SeparatorAt(NumberedReply, 3).None? && SeparatorAt(NumberedReply, 4).None?
    ensures SeparatorAt(NumberedReply, 5).None?
  {
    var s := NumberedReply;
    assert s[3] == 'A' && s[4] == '.' && s[5] == '\n';
    assert DigitsEnd(s, 0) == 1;
    assert SpacesEnd(s, 2) == 3;
  }

  lemma NumberedReplySecondItem()
    ensures SeparatorAt(NumberedReply, 6) == Js.Some(9)
    ensures SeparatorAt(NumberedReply, 9).None? && SeparatorAt(NumberedReply, 10).None?
    ensures SeparatorAt(NumberedReply, 11).None?
  {
    var s := NumberedReply;
    assert s[9] == 'B' && s[10] == '.' && s[11] == '\n';
    assert DigitsEnd(s, 6) == 7;
    assert SpacesEnd(s, 8) == 9;
  }

  lemma NumberedReplyThirdItem()
    ensures SeparatorAt(NumberedReply, 12) == Js.Some(15)
    ensures SeparatorAt(NumberedReply, 15).None? && SeparatorAt(NumberedReply, 16).None?
  {
    var s := NumberedReply;
    assert s[15] == 'C' && s[16] == '.';
    assert DigitsEnd(s, 12) == 13;
    assert SpacesEnd(s, 14) == 15;
  }

  /** The split from the third item on: the last piece runs to the end. */
  lemma SplitThirdItem()
    ensures SplitFrom(NumberedReply, 15, 15) == ["C."]
  {
    var s := NumberedReply;
    NumberedReplyThirdItem();
    assert s[15..] == "C.";
    assert SplitFrom(s, 15, 17) == ["C."];
  }

  lemma SplitSecondItem()
    ensures SplitFrom(NumberedReply, 9, 9) == ["B.\n", "C."]
  {
    var s := NumberedReply;
    assert s[9..12] == "B.\n";
    NumberedReplySecondItem();
    NumberedReplyThirdItem();
    SplitThirdItem();
    assert SplitFrom(s, 9, 12) == [s[9..12]] + SplitFrom(s, 15, 15);
    assert SplitFrom(s, 9, 11) == SplitFrom(s, 9, 12);
    assert SplitFrom(s, 9, 10) == SplitFrom(s, 9, 11);
    assert SplitFrom(s, 9, 9) == SplitFrom(s, 9, 10);
  }

  lemma SplitFirstItem()
    ensures SplitFrom(NumberedReply, 3, 3) == ["A.\n", "B.\n", "C."]
  {
    var s := NumberedReply;
    assert s[3..6] == "A.\n";
    NumberedReplyFirstItem();
    NumberedReplySecondItem();
    SplitSecondItem();
    var rest := SplitFrom(s, 9, 9);
    assert SplitFrom(s, 3, 6) == [s[3..6]] + rest;
    assert SplitFrom(s, 3, 5) == SplitFrom(s, 3, 6);
    assert SplitFrom(s, 3, 4) == SplitFrom(s, 3, 5);
    assert SplitFrom(s, 3, 3) == SplitFrom(s, 3, 4);
  }

  /** The numbered reply of three items splits before each number. */
  lemma SplitExample()
    ensures SplitNumbered(NumberedReply) == ["", "A.\n", "B.\n", "C."]
  {
    NumberedReplyFirstItem();
    SplitFirstItem();
    assert NumberedReply[0..0] == "";
  }

  lemma TrimItems()
    ensures Trim("A.\n") == "A." && Trim("B.\n") == "B." && Trim("C.") == "C." && Trim("") == ""
  {
    assert "A.\n"[..2] == "A." && "B.\n"[..2] == "B.";
    assert SpacesEnd("A.\n", 0) == 0 && SpacesStart("A.\n", 0, 3) == 2;
    assert SpacesEnd("B.\n", 0) == 0 && SpacesStart("B.\n", 0, 3) == 2;
    TrimNoop("C.");
  }

  /** The blank piece before the first number is dropped; the others are kept. */
  lemma NonBlankExample()
    ensures NonBlank(["", "A.\n", "B.\n", "C."]) == ["A.\n", "B.\n", "C."]
  {
    TrimItems();
    var ps := ["", "A.\n", "B.\n", "C."];
    assert ps[1..] == ["A.\n", "B.\n", "C."];
    assert ps[1..][1..] == ["B.\n", "C."];
    assert ps[1..][1..][1..] == ["C."];
  }

  lemma CleanItems()
    ensures CleanEach(["A.\n", "B.\n", "C."]) == ["A.", "B.", "C."]
  {
    TrimItems();
    assert CleanBatchItem("A.\n") == "A." && CleanBatchItem("B.\n") == "B." && CleanBatchItem("C.") == "C.";
  }

  /** The numbered reply of three items yields exactly those three items, in order. */
  lemma BatchExample()
    ensures BatchPrompts(NumberedReply) == ["A.", "B.", "C."]
  {
    TrimNoop(NumberedReply);
    SplitExample();
    NonBlankExample();
    CleanItems();
  }

  /** A year that ends a sentence also splits the list: `1984. ` looks like an item number. */
  lemma BatchSplitsAtYear()
    ensures SplitNumbered("In 1984. It") == ["In ", "It"]
  {
    var s := "In 1984. It";
    assert s[0..3] == "In " && s[9..] == "It";
    assert s[0] == 'I' && s[1] == 'n' && s[2] == ' ' && s[7] == '.' && s[8] == ' ' && s[9] == 'I' && s[10] == 't';
    assert SeparatorAt(s, 0).None? && SeparatorAt(s, 1).None? && SeparatorAt(s, 2).None?;
    assert DigitsEnd(s, 3) == 7;
    assert SeparatorAt(s, 3) == Js.Some(9);
    assert SeparatorAt(s, 9).None? && SeparatorAt(s, 10).None?;
    assert SplitFrom(s, 9, 11) == ["It"];
    assert SplitFrom(s, 9, 9) == ["It"];
    assert SplitFrom(s, 0, 3) == ["In ", "It"];
    assert SplitFrom(s, 0, 2) == SplitFrom(s, 0, 3);
    assert SplitFrom(s, 0, 1) == SplitFrom(s, 0, 2);
    assert SplitFrom(s, 0, 0) == SplitFrom(s, 0, 3);
  }
}
