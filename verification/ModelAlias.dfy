/** common/model_alias.go: model-name canonicalisation. */
module ModelAlias {
  import opened Text
  import opened Sorting

  // ---------------------------------------------------------------- NormalizeModelName

  function TrimPrefix(s: string, prefix: string): string {
    if prefix <= s then s[|prefix|..] else s
  }

  predicate EndsIn(s: string, suffix: string) {
    |suffix| <= |s| && s[|s| - |suffix|..] == suffix
  }

  function TrimSuffix(s: string, suffix: string): string {
    if EndsIn(s, suffix) then s[..|s| - |suffix|] else s
  }

  /** The first position of `c`, or |s|. */
  function Index(s: string, c: char): (k: nat)
    ensures k <= |s|
    ensures c !in s[..k]
    ensures k < |s| ==> s[k] == c
  {
    if s == [] || s[0] == c then 0 else 1 + Index(s[1..], c)
  }

  lemma {:induction false} IndexFirst(s: string, c: char, j: nat)
    requires j < |s| && s[j] == c
    ensures Index(s, c) <= j
  {
    if s[0] != c {
      IndexFirst(s[1..], c, j - 1);
    }
  }

  lemma {:induction false} IndexBehind(text: string, c: char, rest: string)
    requires c !in text
    ensures Index(text + [c] + rest, c) == |text|
  {
    if text != [] {
      IndexBehind(text[1..], c, rest);
      assert (text + [c] + rest)[1..] == text[1..] + [c] + rest;
    }
  }

  /** What follows the last slash, unless the name ends in one. */
  function AfterLastSlash(s: string): string {
    if s == [] then s
    else if s[|s| - 1] == '/' then s
    else if '/' in s then LastSegment(s)
    else s
  }

  function LastSegment(s: string): string
    requires '/' in s && s[|s| - 1] != '/'
  {
    var k := Index(s, '/');
    var rest := s[k + 1..];
    if '/' in rest then LastSegment(rest) else rest
  }

  const LABEL_BRACKETS: seq<(char, char)> :=
    [('[', ']'), ('\U{3010}', '\U{3011}'), ('(', ')'), ('\U{FF08}', '\U{FF09}'), ('{', '}'), ('<', '>')]

  /** Length of a leading `[label]` in the given brackets, or 0; the label itself must not be empty. */
  function LabelLength(s: string, brackets: (char, char)): (n: nat)
    ensures n <= |s|
  {
    if |s| < 2 || s[0] != brackets.0 then 0
    else
      var k := Index(s[1..], brackets.1);
      if 1 <= k < |s| - 1 then k + 2 else 0
  }

  /** The leading-label pattern removed once; the white space after it goes with the TrimSpace that follows. */
  function StripLeadingLabel(s: string, i: nat := 0): string
    requires i <= |LABEL_BRACKETS|
    decreases |LABEL_BRACKETS| - i
  {
    if i == |LABEL_BRACKETS| then s
    else
      var n := LabelLength(s, LABEL_BRACKETS[i]);
      if n > 0 then s[n..] else StripLeadingLabel(s, i + 1)
  }

  /** At most `rounds` leading labels. */
  function StripLabels(name: string, rounds: nat): string
    decreases rounds
  {
    if rounds == 0 then name
    else
      var next := StripLeadingLabel(name);
      if next == name then name
      else if TrimSpace(next) == [] then []
      else StripLabels(TrimSpace(next), rounds - 1)
  }

  predicate AllDigits(s: string) {
    forall c | c in s :: IsDigit(c)
  }

  /** `[-_]` and eight digits. */
  predicate EndsInCompactDate(s: string) {
    var n := |s| - 9;
    n >= 0 && (s[n] == '-' || s[n] == '_') && AllDigits(s[n + 1..])
  }

  function StripCompactDate(s: string): string {
    if EndsInCompactDate(s) then s[..|s| - 9] else s
  }

  /** `-20YY-MM-DD`. */
  predicate EndsInISODate(s: string) {
    var n := |s| - 11;
    n >= 0 && s[n..n + 3] == "-20" && AllDigits(s[n + 3..n + 5]) && s[n + 5] == '-'
    && AllDigits(s[n + 6..n + 8]) && s[n + 8] == '-' && AllDigits(s[n + 9..])
  }

  function StripISODate(s: string): string {
    if EndsInISODate(s) then s[..|s| - 11] else s
  }

  function NormalizeModelName(modelName: string): string {
    var name := TrimSpace(ToLower(modelName));
    if name == [] then []
    else
      var labelled := StripLabels(AfterLastSlash(TrimPrefix(name, "bigmodel/")), 6);
      var untagged := labelled[..Index(labelled, ':')];
      TrimSpace(TrimSuffix(StripISODate(StripCompactDate(untagged)), "-latest"))
  }

  /** The name as the source computes it, one rewriting step after the other. */
  method ComputeNormalizedName(modelName: string) returns (name: string)
    ensures name == NormalizeModelName(modelName)
  {
    hide TrimSpace, ToLower, TrimPrefix, TrimSuffix, AfterLastSlash, StripLeadingLabel, StripCompactDate, StripISODate;
    name := TrimSpace(ToLower(modelName));
    if name == [] {
      return;
    }
    name := TrimPrefix(name, "bigmodel/");
    name := AfterLastSlash(name);
    ghost var start := name;
    var i := 0;
    while i < 6
      invariant 0 <= i <= 6
      invariant StripLabels(start, 6) == StripLabels(name, 6 - i)
    {
      var next := StripLeadingLabel(name);
      if next == name {
        break;
      }
      name := TrimSpace(next);
      if name == [] {
        break;
      }
      i := i + 1;
    }
    name := name[..Index(name, ':')];
    name := StripCompactDate(name);
    name := StripISODate(name);
    name := TrimSuffix(name, "-latest");
    name := TrimSpace(name);
  }

  /** Case and outer white space never matter to the normalized name. */
  lemma NormalizeIgnoresCaseAndSpace(a: string, b: string)
    requires EqualFold(TrimSpace(a), TrimSpace(b))
    ensures NormalizeModelName(a) == NormalizeModelName(b)
  {
    LowerTrim(a);
    LowerTrim(b);
  }

  // ---------------------------------------------------------------- what the rules remove

  /** A prefix or suffix goes once, where it is there, and nothing else goes. */
  lemma AffixesRemoved(name: string, affix: string)
    ensures TrimPrefix(affix + name, affix) == name && TrimSuffix(name + affix, affix) == name
    ensures TrimPrefix(name, affix) == name || affix + TrimPrefix(name, affix) == name
    ensures TrimSuffix(name, affix) == name || TrimSuffix(name, affix) + affix == name
  {
    assert (affix + name)[|affix|..] == name;
    assert (name + affix)[|name|..] == affix;
  }

  lemma CompactDateRemoved(name: string, sep: char, date: string)
    requires (sep == '-' || sep == '_') && |date| == 8 && AllDigits(date)
    ensures StripCompactDate(name + [sep] + date) == name
  {
    var s := name + [sep] + date;
    assert s[|s| - 9] == sep && s[|s| - 8..] == date;
  }

  lemma CompactDateFound(s: string) returns (sep: char, date: string)
    requires StripCompactDate(s) != s
    ensures s == StripCompactDate(s) + [sep] + date
    ensures (sep == '-' || sep == '_') && |date| == 8 && AllDigits(date)
  {
    sep, date := s[|s| - 9], s[|s| - 8..];
  }

  lemma ISODateRemoved(name: string, year: string, month: string, day: string)
    requires |year| == |month| == |day| == 2 && AllDigits(year) && AllDigits(month) && AllDigits(day)
    ensures StripISODate(name + "-20" + year + "-" + month + "-" + day) == name
  {
    var s := name + "-20" + year + "-" + month + "-" + day;
    var n := |s| - 11;
    assert s[n..n + 3] == "-20" && s[n + 3..n + 5] == year && s[n + 6..n + 8] == month && s[n + 9..] == day;
    assert s[..n] == name;
  }

  lemma ISODateFound(s: string) returns (year: string, month: string, day: string)
    requires StripISODate(s) != s
    ensures s == StripISODate(s) + "-20" + year + "-" + month + "-" + day
    ensures |year| == |month| == |day| == 2 && AllDigits(year) && AllDigits(month) && AllDigits(day)
  {
    var n := |s| - 11;
    year, month, day := s[n + 3..n + 5], s[n + 6..n + 8], s[n + 9..];
    assert s[n..] == "-20" + year + "-" + month + "-" + day;
    assert s == s[..n] + s[n..];
  }

  /** A name keeps what follows its last slash; a name that ends in a slash, or has none, is kept whole. */
  lemma {:induction false} LastSlashRule(front: string, name: string)
    requires '/' !in name
    ensures AfterLastSlash(front + "/" + name) == if name == [] then front + "/" else name
    ensures AfterLastSlash(name) == name
  {
    var s := front + "/" + name;
    if name != [] {
      LastSegmentIs(front, name);
      assert s[|front|] == '/';
      assert s[|s| - 1] == name[|name| - 1] && name[|name| - 1] in name;
    }
  }

  lemma {:induction false} LastSegmentIs(front: string, name: string)
    requires '/' !in name && name != []
    ensures var s := front + "/" + name; '/' in s && s[|s| - 1] != '/' && LastSegment(s) == name
  {
    var s := front + "/" + name;
    assert s[|front|] == '/';
    assert s[|s| - 1] == name[|name| - 1] && name[|name| - 1] in name;
    var k := Index(s, '/');
    IndexFirst(s, '/', |front|);
    if k == |front| {
      assert s[k + 1..] == name;
    } else {
      assert s[k + 1..] == front[k + 1..] + "/" + name;
      LastSegmentIs(front[k + 1..], name);
      assert s[k + 1..][|front| - k - 1] == '/';
    }
  }

  /** A leading label in any of the six bracket pairs goes, with its brackets. */
  lemma LabelRemoved(opening: char, closing: char, text: string, rest: string)
    requires (opening, closing) in {('[', ']'), ('\U{3010}', '\U{3011}'), ('(', ')'), ('\U{FF08}', '\U{FF09}'),
                                    ('{', '}'), ('<', '>')}
    requires text != [] && closing !in text
    ensures StripLeadingLabel([opening] + text + [closing] + rest) == rest
  {
    var s := [opening] + text + [closing] + rest;
    assert (opening, closing) in LABEL_BRACKETS;
    var i :| 0 <= i < |LABEL_BRACKETS| && LABEL_BRACKETS[i] == (opening, closing);
    IndexBehind(text, closing, rest);
    assert s[1..] == text + [closing] + rest;
    assert s[|text| + 2..] == rest;
    LabelAt(s, 0, i, |text| + 2);
  }

  lemma {:induction false} LabelAt(s: string, from: nat, i: nat, n: nat)
    requires from <= i < |LABEL_BRACKETS| && 0 < n <= |s| && LabelLength(s, LABEL_BRACKETS[i]) == n
    ensures StripLeadingLabel(s, from) == s[n..]
    decreases i - from
  {
    if from < i {
      assert s[0] == LABEL_BRACKETS[i].0 != LABEL_BRACKETS[from].0;
      LabelAt(s, from + 1, i, n);
    }
  }

  /** No rule brings in a character. */
  lemma {:induction false} LabelPart(s: string, i: nat)
    requires i <= |LABEL_BRACKETS|
    ensures forall c :: c in StripLeadingLabel(s, i) ==> c in s
    decreases |LABEL_BRACKETS| - i
  {
    if i < |LABEL_BRACKETS| {
      LabelPart(s, i + 1);
    }
  }

  lemma {:induction false} LabelsPart(s: string, rounds: nat)
    ensures forall c :: c in StripLabels(s, rounds) ==> c in s
    decreases rounds
  {
    hide StripLeadingLabel, TrimSpace;
    if rounds > 0 {
      LabelPart(s, 0);
      var next := StripLeadingLabel(s);
      TrimSpacePart(next);
      LabelsPart(TrimSpace(next), rounds - 1);
    }
  }

  lemma {:induction false} SegmentPart(s: string)
    requires '/' in s && s[|s| - 1] != '/'
    ensures forall c :: c in LastSegment(s) ==> c in s
  {
    var rest := s[Index(s, '/') + 1..];
    if '/' in rest {
      SegmentPart(rest);
    }
  }

  lemma SuffixPart(s: string)
    ensures StripCompactDate(s) <= s && StripISODate(s) <= s && TrimSuffix(s, "-latest") <= s
  {
  }

  lemma RulesKeepCharacters(name: string)
    ensures forall c :: c in TrimPrefix(name, "bigmodel/") ==> c in name
    ensures forall c :: c in AfterLastSlash(name) ==> c in name
    ensures forall c :: c in TrimSuffix(StripISODate(StripCompactDate(name)), "-latest") ==> c in name
  {
    SuffixPart(name);
    SuffixPart(StripCompactDate(name));
    SuffixPart(StripISODate(StripCompactDate(name)));
    hide LastSegment, StripCompactDate, StripISODate, TrimSuffix;
    if '/' in name && name[|name| - 1] != '/' {
      SegmentPart(name);
    }
  }

  /** A normal form is in lower case. */
  lemma NormalizedIsLower(name: string)
    ensures ToLower(NormalizeModelName(name)) == NormalizeModelName(name)
  {
    hide TrimPrefix, TrimSuffix, AfterLastSlash, StripLabels, StripISODate, StripCompactDate, TrimSpace;
    var lower := TrimSpace(ToLower(name));
    TrimSpacePart(ToLower(name));
    if lower != [] {
      var s1 := TrimPrefix(lower, "bigmodel/");
      var s2 := AfterLastSlash(s1);
      var s3 := StripLabels(s2, 6);
      var s4 := s3[..Index(s3, ':')];
      var s7 := TrimSuffix(StripISODate(StripCompactDate(s4)), "-latest");
      RulesKeepCharacters(lower);
      RulesKeepCharacters(s1);
      LabelsPart(s2, 6);
      RulesKeepCharacters(s4);
      TrimSpacePart(s7);
      assert forall c :: c in s4 ==> c in s3;
      assert forall c :: c in TrimSpace(s7) ==> c in ToLower(name);
    }
    assert forall c :: c in NormalizeModelName(name) ==> c in ToLower(name);
    assert forall c :: c in ToLower(name) ==> LowerChar(c) == c;
  }

  /** Nothing but such a label goes. */
  lemma {:induction false} LabelFound(s: string, from: nat) returns (opening: char, closing: char, text: string)
    requires from <= |LABEL_BRACKETS| && StripLeadingLabel(s, from) != s
    ensures (opening, closing) in {('[', ']'), ('\U{3010}', '\U{3011}'), ('(', ')'), ('\U{FF08}', '\U{FF09}'),
                                   ('{', '}'), ('<', '>')}
    ensures text != [] && closing !in text && s == [opening] + text + [closing] + StripLeadingLabel(s, from)
    decreases |LABEL_BRACKETS| - from
  {
    var n := LabelLength(s, LABEL_BRACKETS[from]);
    if n > 0 {
      var k := Index(s[1..], LABEL_BRACKETS[from].1);
      opening, closing, text := s[0], s[n - 1], s[1..n - 1];
      assert s[1..][k] == s[n - 1] && s[1..][..k] == text;
      assert LABEL_BRACKETS[from] == (opening, closing) && LABEL_BRACKETS[from] in LABEL_BRACKETS;
      assert s == [s[0]] + s[1..n - 1] + [s[n - 1]] + s[n..];
    } else {
      opening, closing, text := LabelFound(s, from + 1);
    }
  }

  // ---------------------------------------------------------------- names that normalizing leaves alone

  predicate StartsWithLabel(s: string) {
    exists i :: 0 <= i < |LABEL_BRACKETS| && LabelLength(s, LABEL_BRACKETS[i]) > 0
  }

  /** No rewriting step applies. */
  predicate Settled(s: string) {
    s == [] || (
      && Trimmed(s) && ToLower(s) == s && !("bigmodel/" <= s) && ('/' in s ==> s[|s| - 1] == '/')
      && !StartsWithLabel(s) && ':' !in s && !EndsInCompactDate(s) && !EndsInISODate(s) && !EndsIn(s, "-latest"))
  }

  lemma TrimShorter(s: string)
    ensures |TrimSpace(s)| <= |s|
    ensures |TrimSpace(s)| == |s| ==> TrimSpace(s) == s
  {
    TrimLeftShorter(s);
    TrimRightShape(TrimLeft(s));
  }

  lemma {:induction false} TrimLeftShorter(s: string)
    ensures |TrimLeft(s)| <= |s|
    ensures |TrimLeft(s)| == |s| ==> TrimLeft(s) == s
  {
    if s != [] && IsSpace(s[0]) {
      TrimLeftShorter(s[1..]);
    }
  }

  lemma {:induction false} LabelShorter(s: string, i: nat)
    requires i <= |LABEL_BRACKETS|
    ensures |StripLeadingLabel(s, i)| <= |s|
    ensures (forall j :: i <= j < |LABEL_BRACKETS| ==> LabelLength(s, LABEL_BRACKETS[j]) == 0)
       <==> |StripLeadingLabel(s, i)| == |s|
    ensures |StripLeadingLabel(s, i)| == |s| ==> StripLeadingLabel(s, i) == s
    decreases |LABEL_BRACKETS| - i
  {
    hide LabelLength;
    if i < |LABEL_BRACKETS| {
      LabelShorter(s, i + 1);
    }
  }

  lemma LabelStripped(s: string)
    ensures |StripLeadingLabel(s)| <= |s|
    ensures StartsWithLabel(s) <==> |StripLeadingLabel(s)| < |s|
    ensures !StartsWithLabel(s) <==> StripLeadingLabel(s) == s
  {
    LabelShorter(s, 0);
  }

  lemma {:induction false} LabelsShorter(s: string, rounds: nat)
    ensures |StripLabels(s, rounds)| <= |s|
    ensures rounds > 0 ==> (|StripLabels(s, rounds)| == |s| <==> !StartsWithLabel(s))
    ensures |StripLabels(s, rounds)| == |s| ==> StripLabels(s, rounds) == s
    decreases rounds
  {
    hide StripLeadingLabel, StartsWithLabel, TrimSpace;
    if rounds > 0 {
      LabelStripped(s);
      var next := StripLeadingLabel(s);
      TrimShorter(next);
      if next != s && TrimSpace(next) != [] {
        LabelsShorter(TrimSpace(next), rounds - 1);
      }
    }
  }

  lemma {:induction false} SegmentShorter(s: string)
    requires '/' in s && s[|s| - 1] != '/'
    ensures |LastSegment(s)| < |s|
    decreases |s|
  {
    var k := Index(s, '/');
    assert s[..|s|] == s;
    assert k < |s|;
    var rest := s[k + 1..];
    if '/' in rest {
      SegmentShorter(rest);
    }
  }

  /** Every rule shortens the name or leaves it alone, and leaves it alone exactly when it does not apply. */
  lemma SlashShorter(s: string)
    ensures |AfterLastSlash(s)| <= |s|
    ensures |AfterLastSlash(s)| == |s| ==> AfterLastSlash(s) == s
    ensures s != [] ==> (|AfterLastSlash(s)| == |s| <==> ('/' in s ==> s[|s| - 1] == '/'))
  {
    hide LastSegment;
    if s != [] && '/' in s && s[|s| - 1] != '/' {
      SegmentShorter(s);
    }
  }

  lemma TagShorter(s: string)
    ensures |s[..Index(s, ':')]| <= |s|
    ensures |s[..Index(s, ':')]| == |s| <==> ':' !in s
    ensures |s[..Index(s, ':')]| == |s| ==> s[..Index(s, ':')] == s
  {
    var k := Index(s, ':');
    if k == |s| {
      assert s[..k] == s;
    }
  }

  lemma SuffixesShorter(s: string)
    ensures |StripCompactDate(s)| <= |s| && (|StripCompactDate(s)| == |s| <==> !EndsInCompactDate(s))
    ensures |StripISODate(s)| <= |s| && (|StripISODate(s)| == |s| <==> !EndsInISODate(s))
    ensures |TrimSuffix(s, "-latest")| <= |s| && (|TrimSuffix(s, "-latest")| == |s| <==> !EndsIn(s, "-latest"))
    ensures |TrimPrefix(s, "bigmodel/")| <= |s| && (|TrimPrefix(s, "bigmodel/")| == |s| <==> !("bigmodel/" <= s))
  {
  }

  /** The name before and after each rule that follows the first trimming. */
  lemma RulesShorten(name: string)
    requires name != [] && Trimmed(name)
    ensures var labelled := StripLabels(AfterLastSlash(TrimPrefix(name, "bigmodel/")), 6);
            var untagged := labelled[..Index(labelled, ':')];
            var r := TrimSpace(TrimSuffix(StripISODate(StripCompactDate(untagged)), "-latest"));
            && |r| <= |name|
            && (|r| == |name| ==> r == name)
            && (|r| == |name| <==>
                  && !("bigmodel/" <= name) && ('/' in name ==> name[|name| - 1] == '/') && !StartsWithLabel(name)
                  && ':' !in name && !EndsInCompactDate(name) && !EndsInISODate(name) && !EndsIn(name, "-latest"))
  {
    hide TrimPrefix, AfterLastSlash, StripLabels, StartsWithLabel, StripCompactDate, StripISODate, TrimSuffix,
         EndsInCompactDate, EndsInISODate, EndsIn, TrimSpace, Trimmed;
    var s1 := TrimPrefix(name, "bigmodel/");
    var s2 := AfterLastSlash(s1);
    var s3 := StripLabels(s2, 6);
    var s4 := s3[..Index(s3, ':')];
    var s5 := StripCompactDate(s4);
    var s6 := StripISODate(s5);
    var s7 := TrimSuffix(s6, "-latest");
    SuffixesShorter(name);
    PrefixKept(name);
    SlashShorter(s1);
    LabelsShorter(s2, 6);
    TagShorter(s3);
    SuffixesShorter(s4);
    SuffixesShorter(s5);
    SuffixesShorter(s6);
    SuffixKept(s4);
    SuffixKept(s5);
    SuffixKept(s6);
    TrimShorter(s7);
    TrimSpaceTrimmed(name);
  }

  lemma PrefixKept(s: string)
    ensures |TrimPrefix(s, "bigmodel/")| == |s| ==> TrimPrefix(s, "bigmodel/") == s
  {
  }

  lemma SuffixKept(s: string)
    ensures |StripCompactDate(s)| == |s| ==> StripCompactDate(s) == s
    ensures |StripISODate(s)| == |s| ==> StripISODate(s) == s
    ensures |TrimSuffix(s, "-latest")| == |s| ==> TrimSuffix(s, "-latest") == s
  {
  }

  /** Normalizing leaves a name alone exactly when none of its rules applies to it. */
  lemma NormalizeFixesIff(s: string)
    ensures NormalizeModelName(s) == s <==> Settled(s)
  {
    hide TrimPrefix, AfterLastSlash, StripLabels, StartsWithLabel, StripCompactDate, StripISODate, TrimSuffix,
         EndsInCompactDate, EndsInISODate, EndsIn, TrimSpace, Trimmed;
    var name := TrimSpace(ToLower(s));
    TrimShorter(ToLower(s));
    TrimSpaceTrimmed(ToLower(s));
    LowerFacts(s);
    if name != [] {
      RulesShorten(name);
    }
  }

  /** So a second pass changes nothing exactly when the first has left no rule to apply. */
  lemma NormalizeIdempotentIff(s: string)
    ensures NormalizeModelName(NormalizeModelName(s)) == NormalizeModelName(s) <==> Settled(NormalizeModelName(s))
  {
    NormalizeFixesIff(NormalizeModelName(s));
  }

  lemma {:induction false} LabelFree(s: string, i: nat)
    requires i <= |LABEL_BRACKETS| && s != [] && s[0] == 'a'
    ensures StripLeadingLabel(s, i) == s
    decreases |LABEL_BRACKETS| - i
  {
    if i < |LABEL_BRACKETS| {
      LabelFree(s, i + 1);
    }
  }

  /** On a plain lower-case name only the suffix rules apply. */
  lemma NormalizePlain(s: string)
    requires s != [] && s[0] == 'a' && '/' !in s && ':' !in s && Trimmed(s) && ToLower(s) == s
    ensures NormalizeModelName(s) == TrimSpace(TrimSuffix(StripISODate(StripCompactDate(s)), "-latest"))
  {
    hide StripISODate, StripCompactDate, TrimSuffix, TrimSpace, StripLeadingLabel, ToLower;
    TrimSpaceTrimmed(s);
    LabelFree(s, 0);
    assert !("bigmodel/" <= s);
    assert s[..Index(s, ':')] == s;
  }

  lemma DatesEndInDigits(s: string)
    requires s != [] && !IsDigit(s[|s| - 1])
    ensures StripISODate(StripCompactDate(s)) == s
  {
    if |s| >= 9 {
      assert s[|s| - 1] == s[|s| - 8..][7];
    }
    if |s| >= 11 {
      assert s[|s| - 1] == s[|s| - 2..][1];
    }
  }

  /** Normalizing twice may strip more: the date is looked for before the `-latest` suffix goes. */
  lemma NormalizeNotIdempotent(dated: string)
    requires |dated| > 9 && dated[0] == 'a' && dated[|dated| - 9] == '-' && AllDigits(dated[|dated| - 8..])
    requires '/' !in dated && ':' !in dated && ToLower(dated) == dated
    ensures NormalizeModelName(dated + "-latest") == dated
    ensures |NormalizeModelName(dated)| < |dated|
  {
    assert IsDigit(dated[|dated| - 1]) by {
      assert dated[|dated| - 8..][7] == dated[|dated| - 1];
    }
    LatestName(dated);
    assert EndsInCompactDate(dated);
    TrimSpaceTrimmed(dated);
    RulesShorten(dated);
  }

  lemma LatestName(dated: string)
    requires dated != [] && dated[0] == 'a'
    requires '/' !in dated && ':' !in dated && ToLower(dated) == dated && Trimmed(dated)
    ensures NormalizeModelName(dated + "-latest") == dated
  {
    var name := dated + "-latest";
    assert ToLower(name) == name;
    NormalizePlain(name);
    DatesEndInDigits(name);
    TrimSpaceTrimmed(dated);
  }

  lemma NotIdempotentExample()
    ensures NormalizeModelName("a-20250101-latest") == "a-20250101"
    ensures NormalizeModelName("a-20250101") != "a-20250101"
  {
    var dated := "a-20250101";
    assert dated[|dated| - 8..] == "20250101";
    assert ToLower(dated) == dated;
    assert dated + "-latest" == "a-20250101-latest";
    NormalizeNotIdempotent(dated);
  }

  // ---------------------------------------------------------------- ToVersionAgnosticKey

  const VERSION_SEPS: set<char> := {'-', '_', '.'}

  /** The pieces around maximal runs of separators, as `regexp.Split` on `[-_.]+` gives them. */
  function SplitRuns(s: string, seps: set<char>): (r: seq<string>)
    ensures |r| > 0
  {
    if s == [] then [[]]
    else
      var rest := SplitRuns(s[1..], seps);
      if s[0] !in seps then [[s[0]] + rest[0]] + rest[1..]
      else if |s| > 1 && s[1] in seps then rest
      else [[]] + rest
  }

  function ReplaceAll(s: string, from: char, to: char): string {
    seq(|s|, i requires 0 <= i < |s| => if s[i] == from then to else s[i])
  }

  /** The trimmed pieces that are not blank. */
  function Cleaned(pieces: seq<string>): seq<string> {
    if pieces == [] then []
    else
      var token := TrimSpace(pieces[0]);
      (if token == [] then [] else [token]) + Cleaned(pieces[1..])
  }

  /** The tokens the source splits a name into. */
  function KeyTokens(modelName: string): seq<string> {
    Cleaned(SplitRuns(ReplaceAll(TrimSpace(ToLower(modelName)), '.', '-'), VERSION_SEPS))
  }

  function ToVersionAgnosticKey(modelName: string): string {
    Join(Sort(Less, KeyTokens(modelName)), '-')
  }

  lemma BlankKey()
    ensures Cleaned(SplitRuns([], VERSION_SEPS)) == [] && Join(Sort(Less, []), '-') == []
  {
    assert Cleaned([[]]) == [] + Cleaned([]);
  }

  lemma BlankHasNoKey()
    ensures ToVersionAgnosticKey([]) == []
  {
    BlankKey();
    assert ReplaceAll(TrimSpace(ToLower([])), '.', '-') == [];
  }

  /** The key as the source computes it: split, filter, sort, join. */
  method ComputeVersionKey(modelName: string) returns (key: string)
    ensures key == ToVersionAgnosticKey(modelName)
  {
    BlankKey();
    hide TrimSpace, ToLower, ReplaceAll, SplitRuns, Less, Sorted, Join;
    var normalized := ReplaceAll(TrimSpace(ToLower(modelName)), '.', '-');
    if normalized == [] {
      return [];
    }
    var tokens := SplitRuns(normalized, VERSION_SEPS);
    var filtered: seq<string> := [];
    for i := 0 to |tokens|
      invariant filtered == Cleaned(tokens[..i])
    {
      var token := TrimSpace(tokens[i]);
      assert tokens[..i + 1] == tokens[..i] + [tokens[i]];
      CleanedConcat(tokens[..i], [tokens[i]]);
      if token == [] {
        continue;
      }
      filtered := filtered + [token];
    }
    assert tokens[..|tokens|] == tokens;
    if |filtered| == 0 {
      return [];
    }
    LessIsTotal();
    var sorted := SortSlice(Less, filtered);
    SortSorts(Less, filtered);
    SortedUnique(Less, sorted, Sort(Less, filtered));
    key := Join(sorted, '-');
  }

  /** The tokens of a name, said without the source's rewriting steps. */
  function VersionTokens(name: string): seq<string> {
    Cleaned(Split(ToLower(name), VERSION_SEPS))
  }

  lemma {:induction false} RunsCleanAlike(s: string, seps: set<char>)
    ensures SplitRuns(s, seps)[0] == Split(s, seps)[0]
    ensures Cleaned(SplitRuns(s, seps)[1..]) == Cleaned(Split(s, seps)[1..])
    ensures Cleaned(SplitRuns(s, seps)) == Cleaned(Split(s, seps))
  {
    if s != [] {
      RunsCleanAlike(s[1..], seps);
      var runs, all := SplitRuns(s[1..], seps), Split(s[1..], seps);
      assert Split(s, seps)[1..] == if s[0] in seps then all else all[1..];
      if s[0] in seps && |s| > 1 && s[1] in seps {
        assert all[0] == [];
      } else {
        assert SplitRuns(s, seps)[1..] == if s[0] in seps then runs else runs[1..];
      }
    }
  }

  /** The tokens of a name, piece by piece: the lower-cased, trimmed, non-blank pieces between single separators. */
  lemma TokensOfPieces(piece: string, sep: char, rest: string)
    requires '-' !in piece && '_' !in piece && '.' !in piece && (sep == '-' || sep == '_' || sep == '.')
    ensures VersionTokens(piece)
         == if TrimSpace(ToLower(piece)) == [] then [] else [TrimSpace(ToLower(piece))]
    ensures VersionTokens(piece + [sep] + rest) == VersionTokens(piece) + VersionTokens(rest)
  {
    var p := ToLower(piece);
    assert forall c | c in p :: c !in VERSION_SEPS;
    assert ToLower(piece + [sep] + rest) == p + [sep] + ToLower(rest);
    SplitNoSeparator(p, VERSION_SEPS);
    SplitAppend(p, sep, ToLower(rest), VERSION_SEPS);
    CleanedConcat([p], Split(ToLower(rest), VERSION_SEPS));
    assert Cleaned([p]) == (if TrimSpace(p) == [] then [] else [TrimSpace(p)]) + Cleaned([]);
  }

  lemma {:induction false} DotIsDash(s: string)
    ensures Split(ReplaceAll(s, '.', '-'), VERSION_SEPS) == Split(s, VERSION_SEPS)
  {
    if s != [] {
      DotIsDash(s[1..]);
      assert ReplaceAll(s, '.', '-')[1..] == ReplaceAll(s[1..], '.', '-');
    }
  }

  lemma {:induction false} TrailingSpace(p: string, c: char)
    requires IsSpace(c)
    ensures TrimSpace(p + [c]) == TrimSpace(p)
  {
    if p == [] {
      assert TrimLeft([c]) == TrimLeft([]);
    } else if IsSpace(p[0]) {
      TrailingSpace(p[1..], c);
      assert (p + [c])[1..] == p[1..] + [c];
    } else {
      assert (p + [c])[..|p|] == p;
    }
  }

  lemma {:induction false} CleanedConcat(a: seq<string>, b: seq<string>)
    ensures Cleaned(a + b) == Cleaned(a) + Cleaned(b)
  {
    if a == [] {
      assert a + b == b;
    } else {
      CleanedConcat(a[1..], b);
      assert (a + b)[1..] == a[1..] + b;
      var head := if TrimSpace(a[0]) == [] then [] else [TrimSpace(a[0])];
      assert (head + Cleaned(a[1..])) + Cleaned(b) == head + (Cleaned(a[1..]) + Cleaned(b));
    }
  }

  function OntoLast(pieces: seq<string>, c: char): seq<string>
    requires pieces != []
  {
    pieces[..|pieces| - 1] + [pieces[|pieces| - 1] + [c]]
  }

  lemma OntoLastCons(x: char, rest: seq<string>, c: char)
    requires rest != []
    ensures var more := OntoLast(rest, c);
            && OntoLast([[]] + rest, c) == [[]] + more
            && OntoLast([[x] + rest[0]] + rest[1..], c) == [[x] + more[0]] + more[1..]
  {
    if |rest| == 1 {
      assert [x] + (rest[0] + [c]) == ([x] + rest[0]) + [c];
    }
  }

  /** A character that is no separator joins the last piece. */
  lemma {:induction false} SplitSnoc(s: string, c: char, seps: set<char>)
    requires c !in seps
    ensures Split(s + [c], seps) == OntoLast(Split(s, seps), c)
  {
    if s == [] {
      assert s + [c] == [c] && [c][1..] == [];
      assert [c] + [] == [c];
    } else {
      hide OntoLast;
      SplitSnoc(s[1..], c, seps);
      assert (s + [c])[1..] == s[1..] + [c];
      OntoLastCons(s[0], Split(s[1..], seps), c);
    }
  }

  /** White space behind the last piece is cleaned away. */
  lemma LastPieceCleaned(pieces: seq<string>, c: char)
    requires pieces != [] && IsSpace(c)
    ensures Cleaned(OntoLast(pieces, c)) == Cleaned(pieces)
  {
    hide TrimSpace, IsSpace;
    var front, last := pieces[..|pieces| - 1], pieces[|pieces| - 1];
    assert pieces == front + [last];
    CleanedConcat(front, [last]);
    CleanedConcat(front, [last + [c]]);
    TrailingSpace(last, c);
  }

  lemma {:induction false} TrimRightClean(s: string)
    ensures Cleaned(Split(TrimRight(s), VERSION_SEPS)) == Cleaned(Split(s, VERSION_SEPS))
  {
    if s != [] && IsSpace(s[|s| - 1]) {
      var init, c := s[..|s| - 1], s[|s| - 1];
      assert TrimRight(s) == TrimRight(init);
      NoSeparator(c);
      hide Split, TrimSpace, IsSpace, Cleaned, OntoLast, TrimRight;
      TrimRightClean(init);
      assert s == init + [c];
      SplitSnoc(init, c, VERSION_SEPS);
      LastPieceCleaned(Split(init, VERSION_SEPS), c);
    }
  }

  lemma NoSeparator(c: char)
    requires IsSpace(c)
    ensures c !in VERSION_SEPS
  {
  }

  lemma {:induction false} TrimLeftClean(s: string)
    ensures Cleaned(Split(TrimLeft(s), VERSION_SEPS)) == Cleaned(Split(s, VERSION_SEPS))
  {
    if s != [] && IsSpace(s[0]) {
      TrimLeftClean(s[1..]);
      var r := Split(s[1..], VERSION_SEPS);
      assert Split(s, VERSION_SEPS) == [[s[0]] + r[0]] + r[1..];
      assert ([s[0]] + r[0])[1..] == r[0];
    }
  }

  /** The source's rewriting steps lose and invent no token. */
  lemma KeyTokensMeaning(name: string)
    ensures KeyTokens(name) == VersionTokens(name)
  {
    var folded := ToLower(name);
    RunsCleanAlike(ReplaceAll(TrimSpace(folded), '.', '-'), VERSION_SEPS);
    DotIsDash(TrimSpace(folded));
    TrimRightClean(TrimLeft(folded));
    TrimLeftClean(folded);
  }

  /** What every token looks like: lower-case, trimmed, not blank, free of separators. */
  predicate IsToken(t: string) {
    t != [] && Trimmed(t) && ToLower(t) == t && forall c | c in t :: c !in VERSION_SEPS
  }

  lemma {:induction false} SplitPieces(s: string, seps: set<char>)
    requires ToLower(s) == s
    ensures forall p | p in Split(s, seps) :: ToLower(p) == p && forall c | c in p :: c !in seps
  {
    if s != [] {
      SplitPieces(s[1..], seps);
      assert ToLower(s)[1..] == ToLower(s[1..]);
      assert LowerChar(s[0]) == s[0] by { assert ToLower(s)[0] == s[0]; }
      var rest := Split(s[1..], seps);
      assert rest[0] in rest;
    }
  }

  lemma {:induction false} TrimSubset(s: string)
    ensures forall c | c in TrimSpace(s) :: c in s
  {
    TrimLeftSuffix(s);
    TrimRightShape(TrimLeft(s));
  }

  lemma {:induction false} TrimLeftSuffix(s: string)
    ensures forall c | c in TrimLeft(s) :: c in s
  {
    if s != [] && IsSpace(s[0]) {
      TrimLeftSuffix(s[1..]);
    }
  }

  lemma {:induction false} CleanedAreTokens(pieces: seq<string>)
    requires forall p | p in pieces :: ToLower(p) == p && forall c | c in p :: c !in VERSION_SEPS
    ensures forall t | t in Cleaned(pieces) :: IsToken(t)
  {
    if pieces != [] {
      var p := pieces[0];
      assert p in pieces && forall q :: q in pieces[1..] ==> q in pieces;
      CleanedAreTokens(pieces[1..]);
      TrimSubset(p);
      TrimSpaceTrimmed(p);
      LowerTrim(p);
    }
  }

  lemma TokensAreTokens(name: string)
    ensures forall t | t in VersionTokens(name) :: IsToken(t)
  {
    LowerFacts(name);
    SplitPieces(ToLower(name), VERSION_SEPS);
    CleanedAreTokens(Split(ToLower(name), VERSION_SEPS));
  }

  lemma {:induction false} CleanedFixesTokens(tokens: seq<string>)
    requires forall t | t in tokens :: IsToken(t)
    ensures Cleaned(tokens) == tokens
  {
    if tokens != [] {
      assert tokens[0] in tokens;
      TrimSpaceTrimmed(tokens[0]);
      CleanedFixesTokens(tokens[1..]);
    }
  }

  lemma {:induction false} JoinLower(tokens: seq<string>)
    requires forall t | t in tokens :: IsToken(t)
    ensures ToLower(Join(tokens, '-')) == Join(tokens, '-')
    ensures tokens != [] ==> Join(tokens, '-') != []
  {
    if tokens != [] {
      assert tokens[0] in tokens;
      JoinLower(tokens[1..]);
      forall i | 0 <= i < |tokens[0]| ensures LowerChar(tokens[0][i]) == tokens[0][i] {
        assert ToLower(tokens[0])[i] == tokens[0][i];
      }
      if |tokens| > 1 {
        var tail := Join(tokens[1..], '-');
        forall i | 0 <= i < |tail| ensures LowerChar(tail[i]) == tail[i] {
          assert ToLower(tail)[i] == tail[i];
        }
        var joined := tokens[0] + ['-'] + tail;
        assert forall i | 0 <= i < |joined| :: ToLower(joined)[i] == joined[i];
      }
    }
  }

  /** Tokenizing undoes joining. */
  lemma TokensOfJoin(tokens: seq<string>)
    requires forall t | t in tokens :: IsToken(t)
    ensures VersionTokens(Join(tokens, '-')) == tokens
  {
    JoinLower(tokens);
    if tokens == [] {
      assert ToLower([]) == [] && Cleaned([[]]) == [] + Cleaned([]);
    } else {
      SplitJoin(tokens, '-', VERSION_SEPS);
      CleanedFixesTokens(tokens);
    }
  }

  lemma SortedTokens(name: string)
    ensures var sorted := Sort(Less, VersionTokens(name));
            && ToVersionAgnosticKey(name) == Join(sorted, '-')
            && VersionTokens(ToVersionAgnosticKey(name)) == sorted
            && multiset(sorted) == multiset(VersionTokens(name))
            && Sorted(Less, sorted)
  {
    var tokens := VersionTokens(name);
    var sorted := Sort(Less, tokens);
    KeyTokensMeaning(name);
    TokensAreTokens(name);
    LessIsTotal();
    SortSorts(Less, tokens);
    forall t | t in sorted ensures IsToken(t) {
      assert t in multiset(sorted);
    }
    TokensOfJoin(sorted);
  }

  /** Two names share a version key exactly when they have the same tokens, counted, in whatever order. */
  lemma VersionKeyCanonical(a: string, b: string)
    ensures ToVersionAgnosticKey(a) == ToVersionAgnosticKey(b)
       <==> multiset(VersionTokens(a)) == multiset(VersionTokens(b))
  {
    SortedTokens(a);
    SortedTokens(b);
    if multiset(VersionTokens(a)) == multiset(VersionTokens(b)) {
      LessIsTotal();
      SortedUnique(Less, Sort(Less, VersionTokens(a)), Sort(Less, VersionTokens(b)));
    }
  }

  lemma BlankKeyIff(a: string)
    ensures ToVersionAgnosticKey(a) == [] <==> VersionTokens(a) == []
  {
    hide ToVersionAgnosticKey;
    BlankHasNoKey();
    VersionKeyCanonical(a, []);
    assert VersionTokens([]) == [] by {
      assert ToLower([]) == [];
      BlankKey();
    }
    assert VersionTokens(a) == [] <==> multiset(VersionTokens(a)) == multiset([]);
  }

  /** The key is its own key. */
  lemma VersionKeyIdempotent(name: string)
    ensures ToVersionAgnosticKey(ToVersionAgnosticKey(name)) == ToVersionAgnosticKey(name)
  {
    SortedTokens(name);
    VersionKeyCanonical(ToVersionAgnosticKey(name), name);
  }

  /** Case and outer white space never matter to the version key either. */
  lemma VersionKeyIgnoresCaseAndSpace(a: string, b: string)
    requires EqualFold(TrimSpace(a), TrimSpace(b))
    ensures ToVersionAgnosticKey(a) == ToVersionAgnosticKey(b)
  {
    LowerTrim(a);
    LowerTrim(b);
  }
}
