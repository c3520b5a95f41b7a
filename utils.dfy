/**
 * app/utils.py: the slug normaliser and the username generator.
 *
 * generate_slug lower-cases, strips surrounding whitespace, deletes every
 * character that is neither a word character, whitespace nor '-', and then
 * replaces each run of whitespace, '_' and '-' by a single '-'. Characters
 * outside ASCII are treated as word characters that lower-casing leaves alone.
 */
module Utils {
  import opened Models

  // ---------------------------------------------------------------- characters

  predicate IsAscii(c: char) {
    c as int < 128
  }

  /** Python's whitespace on ASCII: tab, newline, vertical tab, form feed, carriage return, 0x1c-0x1f, space. */
  predicate IsSpace(c: char) {
    9 <= c as int <= 13 || 28 <= c as int <= 32
  }

  predicate IsUpper(c: char) {
    'A' <= c <= 'Z'
  }

  predicate IsLowerOrDigit(c: char) {
    'a' <= c <= 'z' || '0' <= c <= '9'
  }

  /** The characters the regular-expression class \w matches. */
  predicate IsWordChar(c: char) {
    'a' <= c <= 'z' || 'A' <= c <= 'Z' || '0' <= c <= '9' || c == '_' || !IsAscii(c)
  }

  /** The characters `[^\w\s-]` does not delete. */
  predicate IsKept(c: char) {
    IsWordChar(c) || IsSpace(c) || c == '-'
  }

  /** The characters of the class `[\s_-]`. */
  predicate IsSeparator(c: char) {
    IsSpace(c) || c == '_' || c == '-'
  }

  function Lower(c: char): (r: char)
    ensures !IsUpper(r)
    ensures !IsUpper(c) ==> r == c
    ensures IsAscii(c) ==> IsAscii(r)
  {
    if IsUpper(c) then (c as int + 32) as char else c
  }

  // ------------------------------------------------------------- string stages

  function LowerString(s: string): (r: string)
    ensures |r| == |s| && forall i {:trigger r[i]} :: 0 <= i < |s| ==> r[i] == Lower(s[i])
  {
    if s == [] then [] else [Lower(s[0])] + LowerString(s[1..])
  }

  function TrimStart(s: string): (r: string)
    ensures |r| <= |s|
  {
    if s != [] && IsSpace(s[0]) then TrimStart(s[1..]) else s
  }

  function TrimEnd(s: string): (r: string)
    ensures |r| <= |s|
  {
    if s != [] && IsSpace(s[|s| - 1]) then TrimEnd(s[..|s| - 1]) else s
  }

  /** str.strip(). */
  function Strip(s: string): string {
    TrimEnd(TrimStart(s))
  }

  /** re.sub(r'[^\w\s-]', '', s): delete every character outside the kept class. */
  function RemovePunctuation(s: string): (r: string)
    ensures forall i :: 0 <= i < |r| ==> IsKept(r[i])
  {
    if s == [] then []
    else if IsKept(s[0]) then [s[0]] + RemovePunctuation(s[1..])
    else RemovePunctuation(s[1..])
  }

  function DropSeparators(s: string): (r: string)
    ensures |r| <= |s|
  {
    if s != [] && IsSeparator(s[0]) then DropSeparators(s[1..]) else s
  }

  /** re.sub(r'[\s_-]+', '-', s): every maximal run of separators becomes one '-'. */
  function CollapseSeparators(s: string): string
    decreases |s|
  {
    if s == [] then []
    else if IsSeparator(s[0]) then "-" + CollapseSeparators(DropSeparators(s[1..]))
    else [s[0]] + CollapseSeparators(s[1..])
  }

  /** generate_slug. */
  function GenerateSlug(text: string): string {
    CollapseSeparators(RemovePunctuation(Strip(LowerString(text))))
  }

  // ------------------------------------------------------------ stage properties

  /** Leading whitespace is removed, and only that: the result is a suffix. */
  lemma {:induction false} TrimStartFacts(s: string)
    ensures TrimStart(s) == s[|s| - |TrimStart(s)|..]
    ensures TrimStart(s) != [] ==> !IsSpace(TrimStart(s)[0])
    ensures (forall i :: 0 <= i < |s| ==> !IsSpace(s[i])) ==> TrimStart(s) == s
    ensures forall i :: 0 <= i < |s| - |TrimStart(s)| ==> IsSpace(s[i])
  {
    if s != [] && IsSpace(s[0]) {
      TrimStartFacts(s[1..]);
    }
  }

  /** Trailing whitespace is removed, and only that: the result is a prefix. */
  lemma {:induction false} TrimEndFacts(s: string)
    ensures TrimEnd(s) == s[..|TrimEnd(s)|]
    ensures TrimEnd(s) != [] ==> !IsSpace(TrimEnd(s)[|TrimEnd(s)| - 1])
    ensures (forall i :: 0 <= i < |s| ==> !IsSpace(s[i])) ==> TrimEnd(s) == s
    ensures forall i :: |TrimEnd(s)| <= i < |s| ==> IsSpace(s[i])
  {
    if s != [] && IsSpace(s[|s| - 1]) {
      TrimEndFacts(s[..|s| - 1]);
    }
  }

  /** str.strip(): a middle slice of the input with no whitespace at either end. */
  lemma StripFacts(s: string)
    ensures |s| - |TrimStart(s)| + |Strip(s)| <= |s|
    ensures forall i :: 0 <= i < |Strip(s)| ==> Strip(s)[i] == s[|s| - |TrimStart(s)| + i]
    ensures Strip(s) != [] ==> !IsSpace(Strip(s)[0]) && !IsSpace(Strip(s)[|Strip(s)| - 1])
    ensures (forall i :: 0 <= i < |s| ==> !IsSpace(s[i])) ==> Strip(s) == s
  {
    var t := TrimStart(s);
    TrimStartFacts(s);
    TrimEndFacts(t);
  }

  lemma {:induction false} DropSeparatorsFacts(s: string)
    ensures DropSeparators(s) == s[|s| - |DropSeparators(s)|..]
    ensures DropSeparators(s) != [] ==> !IsSeparator(DropSeparators(s)[0])
  {
    if s != [] && IsSeparator(s[0]) {
      DropSeparatorsFacts(s[1..]);
    }
  }

  /** No two neighbouring characters are both '-'. */
  ghost predicate NoDoubleDash(s: string) {
    forall i, j :: 0 <= i < j < |s| && j == i + 1 ==> !(s[i] == '-' && s[j] == '-')
  }

  /** Separators survive only as '-', a leading run stays visible as a leading '-', and no "--" remains. */
  lemma {:induction false} CollapseFacts(s: string)
    ensures forall i :: 0 <= i < |CollapseSeparators(s)| ==>
      CollapseSeparators(s)[i] == '-' || !IsSeparator(CollapseSeparators(s)[i])
    ensures s != [] ==>
      (CollapseSeparators(s) != [] && (CollapseSeparators(s)[0] == '-' <==> IsSeparator(s[0])))
    ensures NoDoubleDash(CollapseSeparators(s))
    decreases |s|
  {
    if s != [] {
      if IsSeparator(s[0]) {
        var rest := DropSeparators(s[1..]);
        DropSeparatorsFacts(s[1..]);
        CollapseFacts(rest);
      } else {
        CollapseFacts(s[1..]);
      }
    }
  }

  /** Every stage only keeps or deletes characters (Collapse also writes '-'),
      so a property of all input characters holds of the output's. */
  lemma StripKeeps(s: string, P: char -> bool)
    requires forall i :: 0 <= i < |s| ==> P(s[i])
    ensures forall i :: 0 <= i < |Strip(s)| ==> P(Strip(s)[i])
  {
    StripFacts(s);
  }

  lemma {:induction false} RemovePunctuationKeeps(s: string, P: char -> bool)
    requires forall i :: 0 <= i < |s| ==> P(s[i])
    ensures forall i :: 0 <= i < |RemovePunctuation(s)| ==> P(RemovePunctuation(s)[i])
  {
    if s != [] {
      RemovePunctuationKeeps(s[1..], P);
    }
  }

  lemma {:induction false} CollapseKeeps(s: string, P: char -> bool)
    requires forall i :: 0 <= i < |s| ==> P(s[i])
    ensures forall i :: 0 <= i < |CollapseSeparators(s)| ==>
      CollapseSeparators(s)[i] == '-' || P(CollapseSeparators(s)[i])
    decreases |s|
  {
    if s != [] {
      if IsSeparator(s[0]) {
        var rest := DropSeparators(s[1..]);
        DropSeparatorsFacts(s[1..]);
        assert forall i :: 0 <= i < |rest| ==> rest[i] == s[|s| - |rest| + i];
        CollapseKeeps(rest, P);
      } else {
        CollapseKeeps(s[1..], P);
      }
    }
  }

  // ------------------------------------------------------------- slug properties

  /** A property of every lower-cased character holds of every slug character other than '-'. */
  lemma SlugKeeps(text: string, P: char -> bool)
    requires forall i :: 0 <= i < |text| ==> P(Lower(text[i]))
    ensures forall i :: 0 <= i < |GenerateSlug(text)| ==>
      GenerateSlug(text)[i] == '-' || P(GenerateSlug(text)[i])
  {
    var l := LowerString(text);
    StripKeeps(l, P);
    var t := Strip(l);
    var f := RemovePunctuation(t);
    RemovePunctuationKeeps(t, P);
    var Q := (c: char) => P(c) && IsKept(c);
    CollapseKeeps(f, Q);
  }

  /** A slug holds no upper-case letter, no whitespace, no '_' and never "--". */
  lemma SlugShape(text: string)
    ensures forall i :: 0 <= i < |GenerateSlug(text)| ==>
      var c := GenerateSlug(text)[i];
      !IsUpper(c) && !IsSpace(c) && c != '_' && IsKept(c)
    ensures NoDoubleDash(GenerateSlug(text))
  {
    var f := RemovePunctuation(Strip(LowerString(text)));
    SlugKeeps(text, (c: char) => !IsUpper(c));
    CollapseKeeps(f, (c: char) => IsKept(c));
    CollapseFacts(f);
  }

  /** Over ASCII text a slug is made of a-z, 0-9 and '-' only. */
  lemma SlugAsciiAlphabet(text: string)
    requires forall i :: 0 <= i < |text| ==> IsAscii(text[i])
    ensures forall i :: 0 <= i < |GenerateSlug(text)| ==>
      IsLowerOrDigit(GenerateSlug(text)[i]) || GenerateSlug(text)[i] == '-'
  {
    var f := RemovePunctuation(Strip(LowerString(text)));
    SlugKeeps(text, (c: char) => IsAscii(c) && !IsUpper(c));
    CollapseKeeps(f, (c: char) => IsKept(c));
    CollapseFacts(f);
  }

  lemma {:induction false} RemovePunctuationFixed(s: string)
    requires forall i :: 0 <= i < |s| ==> IsKept(s[i])
    ensures RemovePunctuation(s) == s
  {
    if s != [] {
      RemovePunctuationFixed(s[1..]);
    }
  }

  lemma {:induction false} CollapseFixed(s: string)
    requires forall i :: 0 <= i < |s| ==> !IsSpace(s[i]) && s[i] != '_'
    requires NoDoubleDash(s)
    ensures CollapseSeparators(s) == s
  {
    if s != [] {
      CollapseFixed(s[1..]);
      if IsSeparator(s[0]) {
        assert DropSeparators(s[1..]) == s[1..];
      }
    }
  }

  lemma {:induction false} LowerStringFixed(s: string)
    requires forall i :: 0 <= i < |s| ==> !IsUpper(s[i])
    ensures LowerString(s) == s
  {
    if s != [] {
      LowerStringFixed(s[1..]);
    }
  }

  /** A string already in slug shape is its own slug. */
  lemma SlugOfSlugShaped(r: string)
    requires forall i :: 0 <= i < |r| ==> !IsUpper(r[i]) && !IsSpace(r[i]) && r[i] != '_' && IsKept(r[i])
    requires NoDoubleDash(r)
    ensures GenerateSlug(r) == r
  {
    LowerStringFixed(r);
    StripFacts(r);
    RemovePunctuationFixed(r);
    CollapseFixed(r);
  }

  /** Slugging a slug returns it unchanged. */
  lemma SlugIdempotent(text: string)
    ensures GenerateSlug(GenerateSlug(text)) == GenerateSlug(text)
  {
    SlugShape(text);
    SlugOfSlugShaped(GenerateSlug(text));
  }

  lemma DashExampleStages()
    ensures LowerString("! a") == "! a"
    ensures Strip("! a") == "! a"
  {
    assert Lower('!') == '!' && Lower(' ') == ' ' && Lower('a') == 'a';
    assert "! a"[1..] == " a" && " a"[1..] == "a" && "a"[1..] == "";
    StripFacts("! a");
  }

  lemma DashExamplePunctuation()
    ensures RemovePunctuation("! a") == " a"
  {
    assert "! a"[1..] == " a" && " a"[1..] == "a" && "a"[1..] == "";
    assert RemovePunctuation("a") == "a";
  }

  lemma DashExampleCollapse()
    ensures CollapseSeparators(" a") == "-a"
  {
    var a := "a";
    assert " a"[1..] == a && a[1..] == [];
    assert DropSeparators(a) == a;
    assert CollapseSeparators(a) == [a[0]] + CollapseSeparators([]);
  }

  /** Stripping happens before punctuation is deleted, so a slug can start with '-'. */
  lemma SlugMayStartWithDash()
    ensures GenerateSlug("! a") == "-a"
  {
    DashExampleStages();
    DashExamplePunctuation();
    DashExampleCollapse();
  }

  lemma TrailingDashStages()
    ensures LowerString("a !") == "a !"
    ensures Strip("a !") == "a !"
  {
    assert Lower('!') == '!' && Lower(' ') == ' ' && Lower('a') == 'a';
    assert "a !"[1..] == " !" && " !"[1..] == "!" && "!"[1..] == "";
    StripFacts("a !");
  }

  lemma TrailingDashPunctuation()
    ensures RemovePunctuation("a !") == "a "
  {
    assert "a !"[1..] == " !" && " !"[1..] == "!" && "!"[1..] == "";
    assert RemovePunctuation("!") == "";
  }

  lemma TrailingDashCollapse()
    ensures CollapseSeparators("a ") == "a-"
  {
    assert "a "[1..] == " " && " "[1..] == [];
    assert CollapseSeparators(" ") == "-" + CollapseSeparators(DropSeparators([]));
  }

  /** Punctuation is deleted after stripping, so the space before it survives and a slug can end with '-'. */
  lemma SlugMayEndWithDash()
    ensures GenerateSlug("a !") == "a-"
  {
    TrailingDashStages();
    TrailingDashPunctuation();
    TrailingDashCollapse();
  }

  // ------------------------------------------------------------------ usernames

  /** The position of the first '@' at or after k, or |s| when there is none. */
  function FirstAt(s: string, k: nat := 0): (r: nat)
    requires k <= |s|
    ensures k <= r <= |s|
    decreases |s| - k
  {
    if k == |s| || s[k] == '@' then k else FirstAt(s, k + 1)
  }

  /** email.split("@")[0]: the text before the first '@', or all of it. */
  function LocalPart(email: string): string {
    email[..FirstAt(email)]
  }

  lemma {:induction false} FirstAtFacts(s: string, k: nat)
    requires k <= |s|
    ensures forall j :: k <= j < FirstAt(s, k) ==> s[j] != '@'
    ensures FirstAt(s, k) < |s| ==> s[FirstAt(s, k)] == '@'
    decreases |s| - k
  {
    if k < |s| && s[k] != '@' {
      FirstAtFacts(s, k + 1);
    }
  }

  /** The local part is a prefix free of '@', followed by '@' unless it is the whole address. */
  lemma LocalPartFacts(email: string)
    ensures LocalPart(email) == email[..|LocalPart(email)|]
    ensures forall i :: 0 <= i < |LocalPart(email)| ==> LocalPart(email)[i] != '@'
    ensures |LocalPart(email)| < |email| ==> email[|LocalPart(email)|] == '@'
  {
    FirstAtFacts(email, 0);
  }

  type Digit = c: char | '0' <= c <= '9' witness '0'

  /** Three digits drawn by random.choices(string.digits, k=3). */
  type SuffixDraw = (Digit, Digit, Digit)

  predicate UsernameTaken(users: seq<User>, name: string) {
    exists i :: 0 <= i < |users| && users[i].username == name
  }

  function BaseUsername(email: string): string {
    GenerateSlug(LocalPart(email))
  }

  /** The base with one suffix of fresh digits; the base never accumulates suffixes. */
  function Suffixed(base: string, d: SuffixDraw): string {
    base + "-" + [d.0, d.1, d.2]
  }

  /** A suffixed candidate is the base, a '-' and exactly three digits. */
  lemma SuffixedShape(base: string, d: SuffixDraw)
    ensures |Suffixed(base, d)| == |base| + 4
    ensures Suffixed(base, d)[..|base|] == base && Suffixed(base, d)[|base|] == '-'
    ensures forall i :: |base| < i < |Suffixed(base, d)| ==> '0' <= Suffixed(base, d)[i] <= '9'
  {
    var r := Suffixed(base, d);
    assert r[..|base|] == base;
    assert r[|base| + 1] == d.0 && r[|base| + 2] == d.1 && r[|base| + 3] == d.2;
  }

  /** The candidate the loop tests after i draws. */
  function Candidate(base: string, draws: seq<SuffixDraw>, i: nat): string
    requires i <= |draws|
  {
    if i == 0 then base else Suffixed(base, draws[i - 1])
  }

  /** The retry loop from its i-th test on: the first free candidate, if any. */
  function PickUsername(base: string, users: seq<User>, draws: seq<SuffixDraw>, i: nat): (r: Option<string>)
    requires i <= |draws|
    ensures r.Some? ==> !UsernameTaken(users, r.value)
    ensures r.Some? ==> exists k :: i <= k <= |draws| && r.value == Candidate(base, draws, k)
    ensures r.None? <==> forall k :: i <= k <= |draws| ==> UsernameTaken(users, Candidate(base, draws, k))
    decreases |draws| - i
  {
    var candidate := Candidate(base, draws, i);
    if !UsernameTaken(users, candidate) then Some(candidate)
    else if i == |draws| then None
    else PickUsername(base, users, draws, i + 1)
  }

  /**
   * generate_unique_username: the base slug if no user holds it, otherwise
   * the base followed by '-' and the first drawn three digits that no user holds.
   * The users table is the one the query reads.
   */
  method GenerateUniqueUsername(users: seq<User>, email: string, draws: seq<SuffixDraw>)
    returns (r: Option<string>)
    ensures r == PickUsername(BaseUsername(email), users, draws, 0)
    ensures r.Some? ==> !UsernameTaken(users, r.value)
    ensures !UsernameTaken(users, BaseUsername(email)) ==> r == Some(BaseUsername(email))
    ensures UsernameTaken(users, BaseUsername(email)) && r.Some? ==>
      exists k :: 0 <= k < |draws| && r.value == Suffixed(BaseUsername(email), draws[k])
  {
    var base := BaseUsername(email);
    var username := base;
    var i := 0;
    while UsernameTaken(users, username)
      invariant 0 <= i <= |draws|
      invariant username == Candidate(base, draws, i)
      invariant PickUsername(base, users, draws, i) == PickUsername(base, users, draws, 0)
      decreases |draws| - i
    {
      if i == |draws| {
        return None;
      }
      username := Suffixed(base, draws[i]);
      i := i + 1;
    }
    r := Some(username);
  }
}
