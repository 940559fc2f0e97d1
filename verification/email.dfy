/** `isValidEmail` of `hooks/usePaymentVerification.ts`: the regular expression

      local  = dot-atom | "quoted"
      domain = [d.d.d.d] | label.label...tld

    written as string predicates. JavaScript's `\s` and `.` are spelled out below. */
module EmailFormat {
  import opened Wrappers
  import opened Text

  /** The characters JavaScript's `\s` matches. */
  predicate IsJsWhitespace(c: char) {
    c in {'\t', '\n', '\U{000B}', '\U{000C}', '\r', ' ', '\U{00A0}', '\U{1680}',
          '\U{2028}', '\U{2029}', '\U{202F}', '\U{205F}', '\U{3000}', '\U{FEFF}'}
    || ('\U{2000}' <= c <= '\U{200A}')
  }

  /** The characters JavaScript's `.` does not match. */
  predicate IsLineTerminator(c: char) {
    c in {'\n', '\r', '\U{2028}', '\U{2029}'}
  }

  /** `[^<>()\[\]\\.,;:\s@"]`: a character of a dot-atom word. */
  predicate IsAtomChar(c: char) {
    c !in {'<', '>', '(', ')', '[', ']', '\\', '.', ',', ';', ':', '@', '"'} && !IsJsWhitespace(c)
  }

  predicate IsAsciiLetter(c: char) {
    'a' <= c <= 'z' || 'A' <= c <= 'Z'
  }

  /** `[a-zA-Z\-0-9]`: a character of a host label. */
  predicate IsLabelChar(c: char) {
    IsAsciiLetter(c) || IsDigit(c) || c == '-'
  }

  /** `[^...]+`: a non-empty word of atom characters. */
  predicate IsAtom(w: string) {
    |w| >= 1 && forall i :: 0 <= i < |w| ==> IsAtomChar(w[i])
  }

  /** `atom(\.atom)*`: every dot-separated word is an atom. */
  predicate IsDotAtom(s: string) {
    var words := Split(s, '.');
    forall k :: 0 <= k < |words| ==> IsAtom(words[k])
  }

  /** The dot-atom shape read off the characters: non-empty, no dot at either end,
      no two dots in a row, and nothing but atom characters and dots. */
  predicate DotAtomShape(s: string) {
    && |s| >= 1 && s[0] != '.' && s[|s| - 1] != '.'
    && (forall i :: 0 <= i < |s| - 1 ==> !(s[i] == '.' && s[i + 1] == '.'))
    && (forall i :: 0 <= i < |s| ==> s[i] == '.' || IsAtomChar(s[i]))
  }

  /** An unquoted local part is exactly a string of that shape: it has no leading,
      trailing or doubled dots. */
  lemma {:induction false} DotAtomIffShape(s: string)
    ensures IsDotAtom(s) <==> DotAtomShape(s)
    decreases |s|
  {
    match IndexOf(s, '.')
    case None =>
      SplitNone(s, '.');
      assert IsDotAtom(s) <==> IsAtom(s) by {
        var words := Split(s, '.');
        assert |words| == 1 && words[0] == s;
      }
      assert forall i :: 0 <= i < |s| ==> s[i] != '.';
    case Some(p) =>
      SplitFirst(s, '.', p);
      var head, rest := s[..p], s[p + 1..];
      DotAtomIffShape(rest);
      var words := Split(s, '.');
      assert words == [head] + Split(rest, '.');
      var restWords := Split(rest, '.');
      assert IsDotAtom(s) <==> IsAtom(head) && IsDotAtom(rest) by {
        assert words[0] == head;
        assert forall k :: 0 <= k < |restWords| ==> words[k + 1] == restWords[k];
        if IsAtom(head) && IsDotAtom(rest) {
          forall k | 0 <= k < |words| ensures IsAtom(words[k]) {
            if k > 0 { assert words[k] == restWords[k - 1]; }
          }
        }
      }
      ShapeAtFirstDot(s, p);
  }

  /** At the first dot, the shape of `s` is an atom before it and the shape after it. */
  lemma ShapeAtFirstDot(s: string, p: nat)
    requires p < |s| && s[p] == '.' && '.' !in s[..p]
    ensures DotAtomShape(s) <==> IsAtom(s[..p]) && DotAtomShape(s[p + 1..])
  {
    if DotAtomShape(s) {
      ShapeRest(s, p);
    }
    if IsAtom(s[..p]) && DotAtomShape(s[p + 1..]) {
      ShapeJoin(s, p);
    }
  }

  lemma ShapeRest(s: string, p: nat)
    requires p < |s| && s[p] == '.' && '.' !in s[..p]
    requires DotAtomShape(s)
    ensures IsAtom(s[..p]) && DotAtomShape(s[p + 1..])
  {
    var head, rest := s[..p], s[p + 1..];
    assert p >= 1;
    assert p < |s| - 1;
    forall i | 0 <= i < |head| ensures IsAtomChar(head[i]) {
      assert head[i] == s[i] && s[i] != '.';
    }
    assert rest[0] == s[p + 1];
    forall i | 0 <= i < |rest| - 1 ensures !(rest[i] == '.' && rest[i + 1] == '.') {
      assert rest[i] == s[p + 1 + i] && rest[i + 1] == s[p + 2 + i];
    }
    forall i | 0 <= i < |rest| ensures rest[i] == '.' || IsAtomChar(rest[i]) {
      assert rest[i] == s[p + 1 + i];
    }
  }

  lemma ShapeJoin(s: string, p: nat)
    requires p < |s| && s[p] == '.'
    requires IsAtom(s[..p]) && DotAtomShape(s[p + 1..])
    ensures DotAtomShape(s)
  {
    var head, rest := s[..p], s[p + 1..];
    assert s[0] == head[0] && s[|s| - 1] == rest[|rest| - 1];
    forall i | 0 <= i < |s| - 1 ensures !(s[i] == '.' && s[i + 1] == '.') {
      if i < p { assert s[i] == head[i]; }
      else if i == p { assert s[i + 1] == rest[0]; }
      else { assert s[i] == rest[i - p - 1] && s[i + 1] == rest[i - p]; }
    }
    forall i | 0 <= i < |s| ensures s[i] == '.' || IsAtomChar(s[i]) {
      if i < p { assert s[i] == head[i]; }
      else if i > p { assert s[i] == rest[i - p - 1]; }
    }
  }

  /** `".+"`: a double quote, at least one character that is not a line terminator
      (quotes and `@` included), and a closing double quote. */
  predicate IsQuoted(s: string) {
    |s| >= 3 && s[0] == '"' && s[|s| - 1] == '"'
    && forall i :: 1 <= i < |s| - 1 ==> !IsLineTerminator(s[i])
  }

  predicate IsLocalPart(s: string) {
    IsDotAtom(s) || IsQuoted(s)
  }

  /** `[0-9]{1,3}`. */
  predicate IsOctetGroup(g: string) {
    1 <= |g| <= 3 && AllDigits(g)
  }

  /** `\[d.d.d.d]`: four groups of one to three digits in brackets; the value of a
      group is not checked. */
  predicate IsBracketedAddress(d: string) {
    |d| >= 2 && d[0] == '[' && d[|d| - 1] == ']'
    && var groups := Split(d[1..|d| - 1], '.');
       |groups| == 4 && forall k :: 0 <= k < 4 ==> IsOctetGroup(groups[k])
  }

  /** `[a-zA-Z\-0-9]+`: a host label. */
  predicate IsLabel(w: string) {
    |w| >= 1 && forall i :: 0 <= i < |w| ==> IsLabelChar(w[i])
  }

  /** `[a-zA-Z]{2,}`: the last label. */
  predicate IsTopLabel(w: string) {
    |w| >= 2 && forall i :: 0 <= i < |w| ==> IsAsciiLetter(w[i])
  }

  /** `([a-zA-Z\-0-9]+\.)+[a-zA-Z]{2,}`: at least two dot-separated labels, the last of
      at least two ASCII letters. */
  predicate IsHostName(d: string) {
    var labels := Split(d, '.');
    && |labels| >= 2
    && (forall k :: 0 <= k < |labels| - 1 ==> IsLabel(labels[k]))
    && IsTopLabel(labels[|labels| - 1])
  }

  predicate IsDomain(d: string) {
    IsBracketedAddress(d) || IsHostName(d)
  }

  /** What the anchored regular expression accepts: some `@` splits the string into a
      local part and a domain. */
  ghost predicate MatchesEmailPattern(s: string) {
    exists i :: 0 <= i < |s| && s[i] == '@' && IsLocalPart(s[..i]) && IsDomain(s[i + 1..])
  }

  /** `isValidEmail`: tries the split at the last `@`. */
  function IsValidEmail(s: string): (valid: bool)
    ensures valid ==> '@' in s
  {
    match LastIndexOf(s, '@')
    case None => false
    case Some(i) => IsLocalPart(s[..i]) && IsDomain(s[i + 1..])
  }

  /** Trying only the last `@` loses nothing: a domain never holds `@`, so no other
      split can match. */
  lemma ValidEmailMatchesPattern(s: string)
    ensures IsValidEmail(s) <==> MatchesEmailPattern(s)
  {
    if IsValidEmail(s) {
      ValidEmailParts(s);
      var i := LastIndexOf(s, '@').value;
      assert s[i] == '@' && IsLocalPart(s[..i]) && IsDomain(s[i + 1..]);
    }
    if MatchesEmailPattern(s) {
      PatternIsValid(s);
    }
  }

  lemma PatternIsValid(s: string)
    requires MatchesEmailPattern(s)
    ensures IsValidEmail(s)
  {
    var j :| 0 <= j < |s| && s[j] == '@' && IsLocalPart(s[..j]) && IsDomain(s[j + 1..]);
    PatternAt(s, j);
  }

  /** A split of `s` into a local part and a domain is the one at the last `@`. */
  lemma PatternAt(s: string, j: nat)
    requires j < |s| && s[j] == '@' && IsLocalPart(s[..j]) && IsDomain(s[j + 1..])
    ensures IsValidEmail(s)
  {
    DomainHasNoAt(s[j + 1..]);
    OnlyLastAtSplits(s, j);
  }

  /** An `@` with no `@` after it is the last one. */
  lemma OnlyLastAtSplits(s: string, j: nat)
    requires j < |s| && s[j] == '@' && '@' !in s[j + 1..]
    ensures LastIndexOf(s, '@') == Some(j)
  {
    LastIndexOfSeparator(s[..j], '@', s[j + 1..]);
    assert s == s[..j] + ['@'] + s[j + 1..];
  }

  lemma DomainHasNoAt(d: string)
    requires IsDomain(d)
    ensures '@' !in d
  {
    if '@' in d {
      var i :| 0 <= i < |d| && d[i] == '@';
      if IsHostName(d) {
        NoCharOutsideParts(d, '.', '@', i);
      } else {
        var inner := d[1..|d| - 1];
        assert inner[i - 1] == '@';
        NoCharOutsideParts(inner, '.', '@', i - 1);
      }
    }
  }

  /** A character of `s` other than the separator sits in one of the split parts. */
  lemma NoCharOutsideParts(s: string, sep: char, c: char, i: nat)
    requires i < |s| && s[i] == c && c != sep
    ensures exists k, j :: 0 <= k < |Split(s, sep)| && 0 <= j < |Split(s, sep)[k]| && Split(s, sep)[k][j] == c
  {
    JoinSplit(s, sep);
    JoinedCharInPart(Split(s, sep), sep, i);
  }

  lemma {:induction false} JoinedCharInPart(parts: seq<string>, sep: char, i: nat)
    requires |parts| >= 1 && i < |Join(parts, sep)| && Join(parts, sep)[i] != sep
    ensures exists k, j :: 0 <= k < |parts| && 0 <= j < |parts[k]| && parts[k][j] == Join(parts, sep)[i]
    decreases |parts|
  {
    if |parts| > 1 && i >= |parts[0]| {
      var rest := Join(parts[1..], sep);
      assert Join(parts, sep) == parts[0] + [sep] + rest;
      assert i > |parts[0]|;
      assert Join(parts, sep)[i] == rest[i - |parts[0]| - 1];
      JoinedCharInPart(parts[1..], sep, i - |parts[0]| - 1);
      var k, j :| 0 <= k < |parts[1..]| && 0 <= j < |parts[1..][k]| && parts[1..][k][j] == rest[i - |parts[0]| - 1];
      assert parts[k + 1][j] == Join(parts, sep)[i];
    } else if |parts| > 1 {
      assert Join(parts, sep)[i] == parts[0][i];
    }
  }

  /** What a valid address looks like: split at its last `@`, an unquoted local part
      has no leading, trailing or doubled dots; an unbracketed domain has a dot and
      ends in at least two ASCII letters. */
  lemma ValidEmailParts(s: string)
    requires IsValidEmail(s)
    ensures '@' in s
    ensures IsLocalPart(s[..LastIndexOf(s, '@').value]) && IsDomain(s[LastIndexOf(s, '@').value + 1..])
  {
  }

  lemma ValidEmailShape(s: string)
    requires IsValidEmail(s)
    ensures var i := LastIndexOf(s, '@').value;
            var local, domain := s[..i], s[i + 1..];
            && |local| >= 1 && |domain| >= 1
            && (local[0] != '"' ==> DotAtomShape(local))
            && (domain[0] != '[' ==>
                  '.' in domain && IsTopLabel(AfterLast(domain, '.')))
  {
    ValidEmailParts(s);
    var i := LastIndexOf(s, '@').value;
    LocalPartShape(s[..i]);
    DomainShape(s[i + 1..]);
  }

  /** An unquoted local part has the dot-atom shape. */
  lemma LocalPartShape(local: string)
    requires IsLocalPart(local)
    ensures |local| >= 1
    ensures local[0] != '"' ==> DotAtomShape(local)
  {
    DotAtomIffShape(local);
  }

  /** An unbracketed domain has a dot and ends in a top label. */
  lemma DomainShape(domain: string)
    requires IsDomain(domain)
    ensures |domain| >= 1
    ensures domain[0] != '[' ==> '.' in domain && IsTopLabel(AfterLast(domain, '.'))
  {
    if IsHostName(domain) {
      LastPartHolds(domain, '.', IsTopLabel);
    }
  }

  /** Any local part and domain joined by `@` form a valid address. */
  lemma ValidEmailOfParts(local: string, domain: string)
    requires IsLocalPart(local) && IsDomain(domain)
    ensures IsValidEmail(local + ['@'] + domain)
  {
    var s := local + ['@'] + domain;
    DomainHasNoAt(domain);
    LastIndexOfSeparator(local, '@', domain);
    assert s[..|local|] == local && s[|local| + 1..] == domain;
  }

  /** A bracketed address written from four groups. */
  function Bracketed(a: string, b: string, c: string, d: string): string {
    "[" + a + "." + b + "." + c + "." + d + "]"
  }

  /** Any four groups of one to three digits form a bracketed domain. */
  lemma BracketedGroups(a: string, b: string, c: string, d: string)
    requires IsOctetGroup(a) && IsOctetGroup(b) && IsOctetGroup(c) && IsOctetGroup(d)
    ensures IsBracketedAddress(Bracketed(a, b, c, d))
  {
    var groups := [a, b, c, d];
    var inner := a + ['.'] + b + ['.'] + c + ['.'] + d;
    JoinFour(a, b, c, d, '.');
    forall k | 0 <= k < 4 ensures '.' !in groups[k] {
      assert IsOctetGroup(groups[k]);
    }
    SplitJoin(groups, '.');
    var br := Bracketed(a, b, c, d);
    assert br == ['['] + inner + [']'];
    assert br[1..|br| - 1] == inner;
  }

  lemma JoinFour(a: string, b: string, c: string, d: string, sep: char)
    ensures Join([a, b, c, d], sep) == a + [sep] + b + [sep] + c + [sep] + d
  {
    assert [a, b, c, d][1..] == [b, c, d] && [b, c, d][1..] == [c, d] && [c, d][1..] == [d];
    assert Join([c, d], sep) == c + [sep] + d;
    assert Join([b, c, d], sep) == b + [sep] + Join([c, d], sep);
  }

  lemma NinesAreGroup()
    ensures IsOctetGroup("999")
  {
    forall i | 0 <= i < 3 ensures IsDigit("999"[i]) {
      assert i == 0 || i == 1 || i == 2;
    }
  }

  /** Bracketed groups are not range-checked: `999` is accepted where an IPv4 octet
      stops at 255. */
  lemma BracketedAddressIsUnchecked(local: string)
    requires IsLocalPart(local)
    ensures DigitsValue("999") > 255
    ensures IsValidEmail(local + ['@'] + Bracketed("999", "999", "999", "999"))
  {
    NinesAreGroup();
    BracketedGroups("999", "999", "999", "999");
    ValidEmailOfParts(local, Bracketed("999", "999", "999", "999"));
    assert "999"[..2] == "99" && "99"[..1] == "9";
  }
}
