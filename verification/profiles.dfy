/** The list of compile fallback profiles in an environment variable
    (compile_fallback_profiles.go): parsing, printing, and that one undoes the other. */
module Profiles {

  /** White space and lower case, which the program takes from the tables of Unicode. */
  datatype Chars = Chars(space: char -> bool, lower: string -> string) {
    /** All that is used of them. */
    predicate Plain() {
      !space(',') && !space(':') && !space('<') && !space('>') && lower(EMPTY) == EMPTY && lower(DISABLED) == DISABLED
    }

    function TrimLeft(s: string): (t: string)
      ensures t == [] || !space(t[0])
      ensures |t| <= |s| && t == s[|s| - |t|..]
    {
      if s != [] && space(s[0]) then TrimLeft(s[1..]) else s
    }

    function TrimRight(s: string): (t: string)
      ensures t == [] || !space(t[|t| - 1])
      ensures |t| <= |s| && t == s[..|t|]
    {
      if s != [] && space(s[|s| - 1]) then TrimRight(s[..|s| - 1]) else s
    }

    function TrimSpace(s: string): string {
      TrimRight(TrimLeft(s))
    }

    /** Nothing to trim. */
    predicate Trimmed(s: string) {
      s == [] || (!space(s[0]) && !space(s[|s| - 1]))
    }

    lemma TrimmedStays(s: string)
      requires Trimmed(s)
      ensures TrimSpace(s) == s
    {
    }

    lemma BlankWord(s: string)
      requires |s| == 1 && space(s[0])
      ensures TrimSpace(s) == ""
    {
      assert s[1..] == "";
    }

    lemma TrimGives(s: string)
      ensures Trimmed(TrimSpace(s))
      ensures forall c :: c in TrimSpace(s) ==> c in s
    {
      var l := TrimLeft(s);
      var t := TrimRight(l);
      assert t == l[..|t|];
    }

    /** All the space around a word goes, and nothing else. */
    lemma {:induction false} TrimOuter(before: string, t: string, after: string)
      requires (forall c :: c in before ==> space(c)) && (forall c :: c in after ==> space(c))
      requires Trimmed(t) && t != ""
      ensures TrimSpace(before + t + after) == t
    {
      assert before + t + after == before + (t + after) && (t + after)[0] == t[0];
      LeftGoes(before, t + after);
      RightGoes(t, after);
    }

    lemma {:induction false} LeftGoes(before: string, t: string)
      requires (forall c :: c in before ==> space(c)) && t != "" && !space(t[0])
      ensures TrimLeft(before + t) == t
      decreases |before|
    {
      if before == "" {
        assert before + t == t;
      } else {
        assert (before + t)[1..] == before[1..] + t && (before + t)[0] in before;
        LeftGoes(before[1..], t);
      }
    }

    lemma {:induction false} RightGoes(t: string, after: string)
      requires (forall c :: c in after ==> space(c)) && t != "" && !space(t[|t| - 1])
      ensures TrimRight(t + after) == t
      decreases |after|
    {
      if after == "" {
        assert t + after == t;
      } else {
        var s, n := t + after, |after| - 1;
        assert s[..|s| - 1] == t + after[..n] && s[|s| - 1] in after;
        RightGoes(t, after[..n]);
      }
    }

    // ---- profiles --------------------------------------------------------------------------

    /** Trimmed; the words for an empty field become the empty field. */
    function Normalize(v: string): string {
      var s := TrimSpace(v);
      var l := lower(s);
      if s == "" || l == "" || l == EMPTY || l == DISABLED then "" else s
    }

    function Show(field: string): string {
      if TrimSpace(field) == "" then EMPTY else field
    }

    function Print(p: Profile): string {
      Show(p.modelType) + ":" + Show(p.netPlist)
    }
  }

  const EMPTY := "<empty>"
  const DISABLED := "-"

  datatype Profile = Profile(modelType: string, netPlist: string)
  datatype Result = Ok(profiles: seq<Profile>) | Invalid(entry: string)

  // ---- cutting strings -----------------------------------------------------------------------

  /** Where c first occurs, or the end. */
  function IndexOf(s: string, c: char): (i: nat)
    ensures i <= |s| && c !in s[..i] && (i < |s| ==> s[i] == c)
  {
    if s == [] || s[0] == c then 0 else
      assert s[..1 + IndexOf(s[1..], c)] == [s[0]] + s[1..][..IndexOf(s[1..], c)];
      1 + IndexOf(s[1..], c)
  }

  function Split(s: string, c: char): (parts: seq<string>)
    ensures parts != [] && forall i :: 0 <= i < |parts| ==> c !in parts[i]
    decreases |s|
  {
    var i := IndexOf(s, c);
    if i == |s| then
      assert s[..i] == s;
      [s]
    else [s[..i]] + Split(s[i + 1..], c)
  }

  function Join(parts: seq<string>, c: char): string {
    if parts == [] then "" else if |parts| == 1 then parts[0] else parts[0] + [c] + Join(parts[1..], c)
  }

  lemma {:induction false} IndexIs(s: string, c: char, i: nat)
    requires i <= |s| && c !in s[..i] && (i < |s| ==> s[i] == c)
    ensures IndexOf(s, c) == i
  {
    if i > 0 {
      assert s[..i][0] == s[0];
      assert s[1..][..i - 1] == s[..i][1..];
      IndexIs(s[1..], c, i - 1);
    }
  }

  lemma IndexAfter(a: string, b: string, c: char)
    requires c !in a
    ensures IndexOf(a + [c] + b, c) == |a|
  {
    assert (a + [c] + b)[..|a|] == a;
    IndexIs(a + [c] + b, c, |a|);
  }

  lemma NoIndex(s: string, c: char)
    requires c !in s
    ensures IndexOf(s, c) == |s|
  {
    assert s[..|s|] == s;
    IndexIs(s, c, |s|);
  }

  lemma SplitFirst(a: string, rest: string, c: char)
    requires c !in a
    ensures Split(a + [c] + rest, c) == [a] + Split(rest, c)
  {
    hide IndexOf;
    IndexAfter(a, rest, c);
    var s := a + [c] + rest;
    assert s[..|a|] == a && s[|a| + 1..] == rest;
  }

  /** Splitting undoes joining when the pieces do not contain the separator. */
  lemma {:induction false} SplitJoin(parts: seq<string>, c: char)
    requires parts != [] && forall i :: 0 <= i < |parts| ==> c !in parts[i]
    ensures Split(Join(parts, c), c) == parts
    decreases |parts|
  {
    if |parts| == 1 {
      NoIndex(parts[0], c);
    } else {
      SplitJoin(parts[1..], c);
      SplitFirst(parts[0], Join(parts[1..], c), c);
      assert parts == [parts[0]] + parts[1..];
    }
  }

  // ---- parsing -------------------------------------------------------------------------------

  function Key(p: Profile): string {
    p.modelType + [NUL] + p.netPlist
  }

  const NUL: char := 0 as char

  function Keys(l: seq<Profile>): set<string> {
    set p | p in l :: Key(p)
  }

  function ProfileOf(ch: Chars, part: string): Profile
    requires ':' in part
  {
    var i := IndexOf(part, ':');
    if i == |part| then Profile("", "") else Profile(ch.Normalize(part[..i]), ch.Normalize(part[i + 1..]))
  }

  /** The entries one after the other, blank ones and repetitions left out. */
  function ParseParts(ch: Chars, parts: seq<string>, out: seq<Profile>): Result
    decreases |parts|
  {
    if parts == [] then Ok(out)
    else
      var part := ch.TrimSpace(parts[0]);
      if part == "" then ParseParts(ch, parts[1..], out)
      else if ':' !in part then Invalid(part)
      else
        var p := ProfileOf(ch, part);
        ParseParts(ch, parts[1..], if Key(p) in Keys(out) then out else out + [p])
  }

  function Parse(ch: Chars, raw: string): Result {
    var r := ch.TrimSpace(raw);
    if r == "" then Ok([]) else ParseParts(ch, Split(r, ','), [])
  }

  /** A part that is not blank and has no colon. */
  predicate Malformed(ch: Chars, part: string) {
    ch.TrimSpace(part) != "" && ':' !in ch.TrimSpace(part)
  }

  /** Joined by the character that separates them in a key, the names are the same. */
  predicate Named(p: Profile, modelType: string, netPlist: string) {
    p.modelType + [NUL] + p.netPlist == modelType + [NUL] + netPlist
  }

  /** The list has a profile of this part, or an earlier one with the same two names. */
  ghost predicate Covered(ch: Chars, out: seq<Profile>, part: string) {
    var t := ch.TrimSpace(part);
    forall i :: 0 <= i < |t| && t[i] == ':' && ':' !in t[..i] ==>
      exists p :: p in out && Named(p, ch.Normalize(t[..i]), ch.Normalize(t[i + 1..]))
  }

  /** Parsing fails exactly at the first malformed part; otherwise no part is lost. */
  lemma {:induction false} PartsOutcome(ch: Chars, parts: seq<string>, out: seq<Profile>)
    ensures var r := ParseParts(ch, parts, out);
      && (r.Invalid? <==> exists i :: 0 <= i < |parts| && Malformed(ch, parts[i]))
      && (r.Invalid? ==> r.entry != "" && ':' !in r.entry)
      && (r.Ok? ==> out <= r.profiles && forall i :: 0 <= i < |parts| ==> Covered(ch, r.profiles, parts[i]))
    decreases |parts|
  {
    hide Chars.TrimSpace, Chars.Normalize;
    if parts != [] {
      var rest := parts[1..];
      var part := ch.TrimSpace(parts[0]);
      assert parts == [parts[0]] + rest;
      if part == "" {
        PartsOutcome(ch, rest, out);
      } else if ':' in part {
        var p := ProfileOf(ch, part);
        var more := if Key(p) in Keys(out) then out else out + [p];
        PartsOutcome(ch, rest, more);
        FirstCovered(ch, parts[0], out);
        var r := ParseParts(ch, rest, more);
        if r.Ok? {
          CoveredStays(ch, more, r.profiles, parts[0]);
        }
      }
    }
  }

  lemma FirstCovered(ch: Chars, raw: string, out: seq<Profile>)
    requires ':' in ch.TrimSpace(raw)
    ensures var p := ProfileOf(ch, ch.TrimSpace(raw));
      Covered(ch, if Key(p) in Keys(out) then out else out + [p], raw)
  {
    hide Chars.TrimSpace, Chars.Normalize;
    var part := ch.TrimSpace(raw);
    var p := ProfileOf(ch, part);
    var more := if Key(p) in Keys(out) then out else out + [p];
    forall i | 0 <= i < |part| && part[i] == ':' && ':' !in part[..i]
      ensures exists q :: q in more && Named(q, ch.Normalize(part[..i]), ch.Normalize(part[i + 1..]))
    {
      IndexIs(part, ':', i);
      if Key(p) in Keys(out) {
        var q :| q in out && Key(q) == Key(p);
        assert q in more;
      } else {
        assert p in more;
      }
    }
  }

  lemma CoveredStays(ch: Chars, out: seq<Profile>, more: seq<Profile>, part: string)
    requires Covered(ch, out, part) && out <= more
    ensures Covered(ch, more, part)
  {
    hide Chars.TrimSpace, Chars.Normalize;
    assert forall p :: p in out ==> p in more;
  }

  lemma ParseOutcome(ch: Chars, raw: string)
    requires ch.TrimSpace(raw) != ""
    ensures var parts, r := Split(ch.TrimSpace(raw), ','), Parse(ch, raw);
      && (r.Invalid? <==> exists i :: 0 <= i < |parts| && Malformed(ch, parts[i]))
      && (r.Ok? ==> forall i :: 0 <= i < |parts| ==> Covered(ch, r.profiles, parts[i]))
  {
    hide Chars.TrimSpace, Malformed, Covered;
    PartsOutcome(ch, Split(ch.TrimSpace(raw), ','), []);
    assert Parse(ch, raw) == ParseParts(ch, Split(ch.TrimSpace(raw), ','), []);
  }

  method ParseProfiles(ch: Chars, raw: string) returns (r: Result)
    ensures r == Parse(ch, raw)
    ensures ch.TrimSpace(raw) == "" ==> r == Ok([])
    ensures ch.TrimSpace(raw) != "" ==> var parts := Split(ch.TrimSpace(raw), ',');
      && (r.Invalid? <==> exists i :: 0 <= i < |parts| && Malformed(ch, parts[i]))
      && (r.Ok? ==> forall i :: 0 <= i < |parts| ==> Covered(ch, r.profiles, parts[i]))
  {
    hide Chars.TrimSpace, Malformed, Covered, Split, Key, ProfileOf;
    var trimmed := ch.TrimSpace(raw);
    if trimmed == "" {
      return Ok([]);
    }
    var parts := Split(trimmed, ',');
    ParseOutcome(ch, raw);
    assert parts[0..] == parts;
    var out: seq<Profile> := [];
    var seen: set<string> := {};
    for i := 0 to |parts|
      invariant seen == Keys(out)
      invariant Parse(ch, raw) == ParseParts(ch, parts[i..], out)
    {
      assert parts[i..][0] == parts[i] && parts[i..][1..] == parts[i + 1..];
      var part := ch.TrimSpace(parts[i]);
      if part == "" {
        continue;
      }
      if ':' !in part {
        return Invalid(part);
      }
      var profile := ProfileOf(ch, part);
      var key := Key(profile);
      if key in seen {
        continue;
      }
      KeysGrow(out, profile);
      seen := seen + {key};
      out := out + [profile];
    }
    r := Ok(out);
  }

  lemma KeysGrow(out: seq<Profile>, p: Profile)
    ensures Keys(out + [p]) == Keys(out) + {Key(p)}
  {
    forall k | k in Keys(out) + {Key(p)}
      ensures k in Keys(out + [p])
    {
      if k in Keys(out) {
        var q :| q in out && Key(q) == k;
        assert q in out + [p];
      } else {
        assert p in out + [p];
      }
    }
  }

  // ---- round trip ----------------------------------------------------------------------------

  predicate CleanField(ch: Chars, f: string) {
    ch.Normalize(f) == f && ',' !in f
  }

  predicate Clean(ch: Chars, p: Profile) {
    CleanField(ch, p.modelType) && CleanField(ch, p.netPlist) && ':' !in p.modelType
  }

  /** What a list that the parser can return looks like. */
  predicate Returnable(ch: Chars, l: seq<Profile>) {
    (forall i :: 0 <= i < |l| ==> Clean(ch, l[i]))
    && forall i, j :: 0 <= i < j < |l| ==> Key(l[i]) != Key(l[j])
  }

  lemma NormalizeTwice(ch: Chars, v: string)
    ensures ch.Normalize(ch.Normalize(v)) == ch.Normalize(v)
    ensures forall c :: c in ch.Normalize(v) ==> c in v
  {
    ch.TrimGives(v);
    ch.TrimmedStays(ch.TrimSpace(v));
  }

  lemma ProfileIsClean(ch: Chars, part: string)
    requires ':' in part && ',' !in part
    ensures Clean(ch, ProfileOf(ch, part))
  {
    hide Chars.Normalize;
    var i := IndexOf(part, ':');
    if i < |part| {
      NormalizeTwice(ch, part[..i]);
      NormalizeTwice(ch, part[i + 1..]);
      assert forall c :: c in part[i + 1..] || c in part[..i] ==> c in part;
    } else {
      NormalizeTwice(ch, "");
      EmptyIsClean(ch);
    }
  }

  lemma EmptyIsClean(ch: Chars)
    ensures Clean(ch, Profile("", ""))
  {
    ch.TrimmedStays("");
  }

  lemma StillReturnable(ch: Chars, out: seq<Profile>, p: Profile)
    requires Returnable(ch, out) && Clean(ch, p) && Key(p) !in Keys(out)
    ensures Returnable(ch, out + [p])
  {
    hide Key, Clean;
    forall i | 0 <= i < |out|
      ensures Key(out[i]) != Key(p)
    {
      assert out[i] in out;
    }
  }

  lemma {:induction false} PartsReturn(ch: Chars, parts: seq<string>, out: seq<Profile>)
    requires Returnable(ch, out) && forall i :: 0 <= i < |parts| ==> ',' !in parts[i]
    ensures ParseParts(ch, parts, out).Ok? ==> Returnable(ch, ParseParts(ch, parts, out).profiles)
    decreases |parts|
  {
    hide Returnable, Keys, Key, Clean, ProfileOf, Chars.TrimSpace;
    if parts != [] {
      var part := ch.TrimSpace(parts[0]);
      ch.TrimGives(parts[0]);
      if part == "" {
        PartsReturn(ch, parts[1..], out);
      } else if ':' in part {
        var p := ProfileOf(ch, part);
        ProfileIsClean(ch, part);
        if Key(p) in Keys(out) {
          PartsReturn(ch, parts[1..], out);
        } else {
          StillReturnable(ch, out, p);
          PartsReturn(ch, parts[1..], out + [p]);
        }
      }
    }
  }

  /** The parser returns only such lists. */
  lemma ParseReturns(ch: Chars, raw: string)
    ensures Parse(ch, raw).Ok? ==> Returnable(ch, Parse(ch, raw).profiles)
  {
    var r := ch.TrimSpace(raw);
    if r != "" {
      PartsReturn(ch, Split(r, ','), []);
    }
  }

  lemma ShownField(ch: Chars, f: string)
    requires ch.Plain() && CleanField(ch, f)
    ensures ch.Show(f) != "" && ch.Trimmed(ch.Show(f)) && ch.Normalize(ch.Show(f)) == f && ',' !in ch.Show(f)
    ensures ':' !in f ==> ':' !in ch.Show(f)
  {
    if f == "" {
      ShownEmpty(ch);
    } else {
      hide Chars.TrimLeft, Chars.TrimRight, Chars.Plain;
      ch.TrimGives(f);
      assert ch.TrimSpace(f) == f;
    }
  }

  lemma ShownEmpty(ch: Chars)
    requires ch.Plain()
    ensures ch.Show("") == EMPTY && ch.Trimmed(EMPTY) && ch.Normalize(EMPTY) == "" && ',' !in EMPTY && ':' !in EMPTY
  {
    ch.TrimmedStays("");
    WordForNone(ch, EMPTY);
    hide Chars.TrimLeft, Chars.TrimRight, Chars.TrimSpace, Chars.Normalize;
    assert EMPTY[0] == '<' && EMPTY[|EMPTY| - 1] == '>';
  }

  lemma PrintedPart(ch: Chars, p: Profile)
    requires ch.Plain() && Clean(ch, p)
    ensures var part := ch.Print(p);
      part != "" && ch.TrimSpace(part) == part && ch.Trimmed(part) && ':' in part && ',' !in part
      && ProfileOf(ch, part) == p
  {
    hide Chars.Show, Chars.Normalize, Chars.Plain, Chars.TrimSpace;
    var a, b := ch.Show(p.modelType), ch.Show(p.netPlist);
    ShownField(ch, p.modelType);
    ShownField(ch, p.netPlist);
    var part := a + ":" + b;
    assert part[0] == a[0] && part[|part| - 1] == b[|b| - 1] && part[|a|] == ':';
    ch.TrimmedStays(part);
    IndexAfter(a, b, ':');
    assert part[..|a|] == a && part[|a| + 1..] == b;
  }

  function PrintAll(ch: Chars, l: seq<Profile>): (parts: seq<string>)
    ensures |parts| == |l| && forall i :: 0 <= i < |l| ==> parts[i] == ch.Print(l[i])
  {
    seq(|l|, i requires 0 <= i < |l| => ch.Print(l[i]))
  }

  function PrintList(ch: Chars, l: seq<Profile>): string {
    Join(PrintAll(ch, l), ',')
  }

  lemma {:induction false} JoinTrimmed(ch: Chars, parts: seq<string>)
    requires ch.Plain() && parts != [] && forall i :: 0 <= i < |parts| ==> parts[i] != "" && ch.Trimmed(parts[i])
    ensures Join(parts, ',') != "" && ch.Trimmed(Join(parts, ','))
    decreases |parts|
  {
    hide Chars.Plain;
    if |parts| > 1 {
      JoinTrimmed(ch, parts[1..]);
      CommaKeepsTrimmed(ch, parts[0], Join(parts[1..], ','));
    }
  }

  lemma CommaKeepsTrimmed(ch: Chars, a: string, b: string)
    requires a != "" && b != "" && ch.Trimmed(a) && ch.Trimmed(b)
    ensures a + [','] + b != "" && ch.Trimmed(a + [','] + b)
  {
    var s := a + [','] + b;
    assert s[0] == a[0] && s[|s| - 1] == b[|b| - 1];
  }

  lemma NewKey(ch: Chars, l: seq<Profile>, n: nat)
    requires Returnable(ch, l) && n < |l|
    ensures Key(l[n]) !in Keys(l[..n]) && Clean(ch, l[n])
  {
    hide Key, Clean;
    forall q | q in l[..n]
      ensures Key(q) != Key(l[n])
    {
      var i :| 0 <= i < n && l[i] == q;
    }
  }

  lemma {:induction false} PrintedParts(ch: Chars, l: seq<Profile>, n: nat)
    requires ch.Plain() && Returnable(ch, l) && n <= |l|
    ensures ParseParts(ch, PrintAll(ch, l)[n..], l[..n]) == Ok(l)
    decreases |l| - n
  {
    hide Returnable, Keys, Key, Clean, ProfileOf, Chars.TrimSpace, Chars.Print, Chars.Plain, Chars.Trimmed;
    if n == |l| {
      assert l[..n] == l;
    } else {
      var parts := PrintAll(ch, l)[n..];
      NewKey(ch, l, n);
      PrintedPart(ch, l[n]);
      assert parts[1..] == PrintAll(ch, l)[n + 1..] && l[..n] + [l[n]] == l[..n + 1];
      PrintedParts(ch, l, n + 1);
    }
  }

  /** Printing a list that was parsed and parsing it again gives the same list. */
  lemma ParsePrint(ch: Chars, l: seq<Profile>)
    requires ch.Plain() && Returnable(ch, l)
    ensures Parse(ch, PrintList(ch, l)) == Ok(l)
  {
    var parts := PrintAll(ch, l);
    if l != [] {
      forall i | 0 <= i < |l|
        ensures parts[i] != "" && ch.Trimmed(parts[i]) && ',' !in parts[i]
      {
        PrintedPart(ch, l[i]);
      }
      JoinTrimmed(ch, parts);
      ch.TrimmedStays(PrintList(ch, l));
      SplitJoin(parts, ',');
      PrintedParts(ch, l, 0);
      assert parts[0..] == parts && l[..0] == [];
    } else {
      ch.TrimmedStays("");
    }
  }

  lemma RoundTrip(ch: Chars, raw: string)
    requires ch.Plain() && Parse(ch, raw).Ok?
    ensures Parse(ch, PrintList(ch, Parse(ch, raw).profiles)) == Parse(ch, raw)
  {
    ParseReturns(ch, raw);
    ParsePrint(ch, Parse(ch, raw).profiles);
  }

  /** The printed form: entries apart by commas, fields by a colon, and words for an empty field that
      parsing takes back. */
  lemma PrintedForm(ch: Chars, p: Profile, q: Profile)
    requires ch.Plain()
    ensures PrintList(ch, []) == "" && PrintList(ch, [p]) == ch.Print(p)
    ensures PrintList(ch, [p, q]) == ch.Print(p) + "," + ch.Print(q)
    ensures ch.TrimSpace(p.modelType) != "" && ch.TrimSpace(p.netPlist) != "" ==>
      ch.Print(p) == p.modelType + ":" + p.netPlist
    ensures ch.TrimSpace(p.modelType) != "" && ch.TrimSpace(p.netPlist) == "" ==>
      ch.Print(p) == p.modelType + ":" + "<empty>"
    ensures ch.Normalize("<empty>") == "" && ch.Normalize("-") == ""
  {
    hide Chars.TrimSpace, Chars.Normalize, Chars.Show;
    var parts := PrintAll(ch, [p, q]);
    assert parts == [ch.Print(p), ch.Print(q)] && parts[1..] == [ch.Print(q)];
    assert PrintAll(ch, [p]) == [ch.Print(p)] && PrintAll(ch, []) == [];
    assert Join([ch.Print(q)], ',') == ch.Print(q);
    assert Join(parts, ',') == ch.Print(p) + [','] + Join(parts[1..], ',');
    Shown(ch, p);
    WordForNone(ch, EMPTY);
    WordForNone(ch, DISABLED);
  }

  lemma Shown(ch: Chars, p: Profile)
    ensures ch.Print(p) == ch.Show(p.modelType) + ":" + ch.Show(p.netPlist)
    ensures ch.TrimSpace(p.modelType) != "" ==> ch.Show(p.modelType) == p.modelType
    ensures ch.Show(p.netPlist) == if ch.TrimSpace(p.netPlist) == "" then "<empty>" else p.netPlist
  {
    hide Chars.TrimSpace;
  }

  lemma WordForNone(ch: Chars, word: string)
    requires ch.lower(word) == word && (word == EMPTY || word == DISABLED) && (word == EMPTY ==> ch.Plain())
    ensures ch.Normalize(word) == ""
  {
    hide Chars.TrimSpace, Chars.TrimLeft, Chars.TrimRight;
    if ch.Trimmed(word) {
      ch.TrimmedStays(word);
    } else {
      ch.BlankWord(word);
    }
  }
}
