/**
 * Email derivation, `clean` and `buildEmail`: both scripts define these two
 * helpers with the same computation, so they are modelled once here.
 *
 * An agent's address is `first.L.suffix@goodnews.com`: the first word of the
 * name cleaned to lower-case ASCII letters, the first letter of the cleaned
 * last word, and the last three ASCII digits of the account number.
 */
module EmailDerivation {
  import opened JsText
  import opened Wrappers

  const Domain: string := "goodnews.com"

  /** The address ends with this text. */
  const DomainSuffix: string := "@" + Domain

  predicate IsLower(c: char) { 'a' <= c <= 'z' }

  predicate IsDigit(c: char) { '0' <= c <= '9' }

  predicate AllLower(s: string) { forall i :: 0 <= i < |s| ==> IsLower(s[i]) }

  predicate AllDigits(s: string) { forall i :: 0 <= i < |s| ==> IsDigit(s[i]) }

  /**
   * What survives of one character after `toLowerCase()` and the removal of
   * everything outside `a`-`z`. Upper-case ASCII letters are lowered; of the
   * rest of Unicode only KELVIN SIGN (lower-cased to `k`) and LATIN CAPITAL
   * LETTER I WITH DOT ABOVE (lower-cased to `i` and a combining dot, which is
   * then removed) have a lower-case form containing an ASCII letter.
   */
  function CleanChar(c: char): (r: string)
    ensures |r| <= 1 && AllLower(r)
    ensures IsLower(c) ==> r == [c]
    ensures 'A' <= c <= 'Z' ==> r == [(c as int - 'A' as int + 'a' as int) as char]
    ensures c == '\U{212A}' ==> r == "k"
    ensures c == '\U{130}' ==> r == "i"
    ensures r == [] <==> !(IsLower(c) || 'A' <= c <= 'Z' || c == '\U{212A}' || c == '\U{130}')
  {
    if IsLower(c) then [c]
    else if 'A' <= c <= 'Z' then [(c as int + 32) as char]
    else if c == '\U{212A}' then "k"
    else if c == '\U{130}' then "i"
    else []
  }

  /** `clean(text)`: lower-case, then keep only the letters `a`-`z`. */
  function Clean(s: string): (r: string)
    ensures AllLower(r)
    ensures |r| <= |s|
  {
    if s == [] then [] else CleanChar(s[0]) + Clean(s[1..])
  }

  /** Cleaning works character by character, so it keeps the order of what it keeps. */
  lemma {:induction false} CleanAppend(a: string, b: string)
    ensures Clean(a + b) == Clean(a) + Clean(b)
  {
    if a == [] {
      assert a + b == b;
    } else {
      assert (a + b)[0] == a[0];
      assert (a + b)[1..] == a[1..] + b;
      CleanAppend(a[1..], b);
    }
  }

  /** Text that is already lower-case ASCII letters comes through unchanged. */
  lemma {:induction false} CleanOfLower(s: string)
    requires AllLower(s)
    ensures Clean(s) == s
  {
    if s != [] { CleanOfLower(s[1..]); }
  }

  /** A capitalised word is cleaned to its lower-case spelling. */
  lemma CleanCapitalised(s: string)
    requires s != [] && 'A' <= s[0] <= 'Z' && AllLower(s[1..])
    ensures Clean(s) == CleanChar(s[0]) + s[1..]
  {
    CleanOfLower(s[1..]);
  }

  /** `clean(clean(x)) == clean(x)`. */
  lemma CleanIdempotent(s: string)
    ensures Clean(Clean(s)) == Clean(s)
  {
    CleanOfLower(Clean(s));
  }

  /** Cleaning yields nothing exactly when no character has a letter `a`-`z` as its lower-case form. */
  lemma {:induction false} CleanEmpty(s: string)
    ensures Clean(s) == [] <==> forall i :: 0 <= i < |s| ==> CleanChar(s[i]) == []
  {
    if s != [] {
      CleanEmpty(s[1..]);
      assert forall i :: 1 <= i < |s| ==> s[1..][i - 1] == s[i];
    }
  }

  /** `text.replace(/[^0-9]/g, "")`: the ASCII digits, in order. */
  function Digits(s: string): (r: string)
    ensures AllDigits(r)
    ensures |r| <= |s|
  {
    if s == [] then []
    else (if IsDigit(s[0]) then [s[0]] else []) + Digits(s[1..])
  }

  lemma {:induction false} DigitsAppend(a: string, b: string)
    ensures Digits(a + b) == Digits(a) + Digits(b)
  {
    if a == [] {
      assert a + b == b;
    } else {
      assert (a + b)[0] == a[0];
      assert (a + b)[1..] == a[1..] + b;
      DigitsAppend(a[1..], b);
    }
  }

  /**
   * `digits.slice(-3)`: JavaScript clamps the start `length - 3` at 0, so
   * this is the last three digits, or all of them when there are fewer.
   */
  function Suffix(accountNumber: string): (r: string)
    ensures var d := Digits(accountNumber);
            |r| == (if |d| < 3 then |d| else 3) && d == d[..|d| - |r|] + r
    ensures AllDigits(r)
  {
    var d := Digits(accountNumber);
    var start := if |d| - 3 < 0 then 0 else |d| - 3;
    d[start..]
  }

  /**
   * `${lastName[0]}`: the first letter of the cleaned last name, or, when
   * that is empty, the text `undefined` that JavaScript writes for a missing
   * index.
   */
  function Initial(lastName: string): (r: string)
    requires AllLower(lastName)
    ensures AllLower(r) && r != []
    ensures lastName != [] ==> r == lastName[..1]
    ensures lastName == [] ==> r == "undefined"
  {
    if lastName == [] then "undefined" else [lastName[0]]
  }

  /** A character of the local part: a lower-case letter, a digit or a dot. */
  predicate IsLocalChar(c: char) { IsLower(c) || IsDigit(c) || c == '.' }

  /** The three segments of an address: cleaned first name, initial, digit suffix. */
  datatype Segments = Segments(first: string, initial: string, suffix: string)

  /** What every derived address's segments look like. */
  predicate WellFormed(g: Segments)
  {
    AllLower(g.first) && AllLower(g.initial) && g.initial != [] && AllDigits(g.suffix) && |g.suffix| <= 3
  }

  /** The template `${first}.${initial}.${suffix}@${EMAIL_DOMAIN}`. */
  function Compose(g: Segments): string
  {
    g.first + ("." + (g.initial + ("." + (g.suffix + ("@" + Domain)))))
  }

  /** The segments `buildEmail` fills into the template for a name and an account number. */
  function SegmentsOf(fullName: string, accountNumber: string): (g: Segments)
    ensures WellFormed(g)
  {
    var parts := SplitWs(Trim(fullName));
    Segments(Clean(parts[0]), Initial(Clean(parts[|parts| - 1])), Suffix(accountNumber))
  }

  /**
   * `buildEmail(fullName, accountNumber)`. Never fails: an empty cleaned
   * first word gives an empty first segment, an empty cleaned last word
   * gives `undefined`, and an account number without digits gives an empty
   * suffix.
   */
  function BuildEmail(fullName: string, accountNumber: string): string
  {
    Compose(SegmentsOf(fullName, accountNumber))
  }

  /** Every derived address is a local part of letters, digits and dots, then `@goodnews.com`. */
  lemma BuildEmailShape(fullName: string, accountNumber: string)
    ensures var r := BuildEmail(fullName, accountNumber);
            && |r| > |DomainSuffix| && r[|r| - |DomainSuffix|..] == DomainSuffix
            && forall i :: 0 <= i < |r| - |DomainSuffix| ==> IsLocalChar(r[i])
  {
    ComposeShape(SegmentsOf(fullName, accountNumber));
  }

  /** A composed address is a local part of letters, digits and dots, then the domain. */
  lemma ComposeShape(g: Segments)
    requires WellFormed(g)
    ensures var r := Compose(g);
            && |r| > |DomainSuffix| && r[|r| - |DomainSuffix|..] == DomainSuffix
            && forall i :: 0 <= i < |r| - |DomainSuffix| ==> IsLocalChar(r[i])
  {
    var local := g.first + "." + g.initial + "." + g.suffix;
    assert Compose(g) == local + DomainSuffix;
    assert forall i :: 0 <= i < |local| ==> IsLocalChar(local[i]);
  }

  /** Position of the first `c` in `s`, or `|s|` when there is none. */
  function IndexOf(s: string, c: char): (n: nat)
    ensures n <= |s|
    ensures n < |s| ==> s[n] == c
    ensures forall i :: 0 <= i < n ==> s[i] != c
  {
    if s == [] then 0 else if s[0] == c then 0 else 1 + IndexOf(s[1..], c)
  }

  /**
   * Reads an address back into its segments: up to the first dot, up to the
   * next dot, up to the `@`, and then exactly the domain.
   */
  function ParseEmail(e: string): Option<Segments>
  {
    var i := IndexOf(e, '.');
    if i == |e| then None else ParseAfterFirst(e[..i], e[i + 1..])
  }

  function ParseAfterFirst(first: string, rest: string): Option<Segments>
  {
    var j := IndexOf(rest, '.');
    if j == |rest| then None else ParseAfterInitial(first, rest[..j], rest[j + 1..])
  }

  function ParseAfterInitial(first: string, initial: string, tail: string): Option<Segments>
  {
    var k := IndexOf(tail, '@');
    if k == |tail| || tail[k + 1..] != Domain then None
    else Some(Segments(first, initial, tail[..k]))
  }

  /** The first `c` of `a + [c] + b` is the one after `a` when `a` has none. */
  lemma {:induction false} IndexOfAfter(a: string, c: char, b: string)
    requires forall i :: 0 <= i < |a| ==> a[i] != c
    ensures IndexOf(a + ([c] + b), c) == |a|
    ensures (a + ([c] + b))[..|a|] == a && (a + ([c] + b))[|a| + 1..] == b
  {
    var s := a + ([c] + b);
    if a == [] {
      assert s == [c] + b;
    } else {
      assert s[0] == a[0];
      assert s[1..] == a[1..] + ([c] + b);
      IndexOfAfter(a[1..], c, b);
    }
  }

  /** Reading a composed address back gives exactly the segments it was composed of. */
  lemma ParseCompose(g: Segments)
    requires WellFormed(g)
    ensures ParseEmail(Compose(g)) == Some(g)
  {
    var tail := g.suffix + ("@" + Domain);
    var rest := g.initial + ("." + tail);
    assert Compose(g) == g.first + ("." + rest);
    IndexOfAfter(g.first, '.', rest);
    ParseRest(g.first, g.initial, g.suffix);
  }

  lemma ParseRest(first: string, initial: string, suffix: string)
    requires AllLower(initial) && AllDigits(suffix)
    ensures var tail := suffix + ("@" + Domain);
            ParseAfterFirst(first, initial + ("." + tail)) == Some(Segments(first, initial, suffix))
  {
    var tail := suffix + ("@" + Domain);
    IndexOfAfter(initial, '.', tail);
    ParseTail(first, initial, suffix);
  }

  lemma ParseTail(first: string, initial: string, suffix: string)
    requires AllDigits(suffix)
    ensures ParseAfterInitial(first, initial, suffix + ("@" + Domain)) == Some(Segments(first, initial, suffix))
  {
    IndexOfAfter(suffix, '@', Domain);
  }

  /** Reading a built address back gives exactly the segments it was built from. */
  lemma ParseBuildEmail(fullName: string, accountNumber: string)
    ensures ParseEmail(BuildEmail(fullName, accountNumber)) == Some(SegmentsOf(fullName, accountNumber))
  {
    ParseCompose(SegmentsOf(fullName, accountNumber));
  }

  /** Two names and account numbers give the same address only when they give the same segments. */
  lemma BuildEmailDeterminesSegments(n1: string, a1: string, n2: string, a2: string)
    requires BuildEmail(n1, a1) == BuildEmail(n2, a2)
    ensures SegmentsOf(n1, a1) == SegmentsOf(n2, a2)
  {
    ParseBuildEmail(n1, a1);
    ParseBuildEmail(n2, a2);
  }

  /** Digits-only text is its own digit string. */
  lemma {:induction false} DigitsOfDigits(s: string)
    requires AllDigits(s)
    ensures Digits(s) == s
  {
    if s != [] { DigitsOfDigits(s[1..]); }
  }

  /** A long account number keeps its last three digits: `0012345678` gives `678`. */
  lemma SuffixOfLongNumber()
    ensures Suffix("0012345678") == "678"
  {
    assert AllDigits("0012345678");
    SuffixOfDigits("0012345678");
  }

  /** An account number made of digits only keeps its last three, or all of them when shorter. */
  lemma SuffixOfDigits(d: string)
    requires AllDigits(d)
    ensures Suffix(d) == d[(if |d| < 3 then 0 else |d| - 3)..]
  {
    DigitsOfDigits(d);
  }

  /** A short account number keeps all of its digits: `55` gives `55`. */
  lemma SuffixOfShortNumber()
    ensures Suffix("55") == "55"
  {
    DigitsOfDigits("55");
  }

  /** Non-digits are dropped before the last three are taken: `AC-9` gives `9`. */
  lemma SuffixSkipsNonDigits()
    ensures Suffix("AC-9") == "9"
  {
    assert "AC-9" == "AC" + "-9";
    DigitsAppend("AC", "-9");
    assert Digits("-9") == Digits("9");
  }

  /** Text without an ASCII digit leaves nothing behind. */
  lemma {:induction false} DigitsOfNonDigits(s: string)
    requires forall i :: 0 <= i < |s| ==> !IsDigit(s[i])
    ensures Digits(s) == []
  {
    if s != [] { DigitsOfNonDigits(s[1..]); }
  }

  /** An account number without digits gives an empty suffix, and no error. */
  lemma SuffixOfNoDigits(accountNumber: string)
    requires forall i :: 0 <= i < |accountNumber| ==> !IsDigit(accountNumber[i])
    ensures Suffix(accountNumber) == []
  {
    DigitsOfNonDigits(accountNumber);
  }

  /** The first segment comes from the first word of the trimmed name, the initial from its last word. */
  lemma SegmentsFromWords(fullName: string, accountNumber: string)
    ensures var t := Trim(fullName);
            var g := SegmentsOf(fullName, accountNumber);
            && g.first == Clean(t[..WordEnd(t, 0)])
            && g.initial == Initial(Clean(t[WordStart(t, |t|)..]))
            && g.suffix == Suffix(accountNumber)
  {
    var t := Trim(fullName);
    var parts := SplitWs(t);
    SplitWsFirst(t);
    SplitWsLast(t);
    assert parts[0] == t[..WordEnd(t, 0)];
    assert parts[|parts| - 1] == t[WordStart(t, |t|)..];
  }

  /** A one-word name serves as both first and last name: `Madonna` gives `madonna.m.`. */
  lemma SingleWordName(fullName: string, accountNumber: string)
    requires NoSpace(Trim(fullName))
    ensures var w := Clean(Trim(fullName));
            SegmentsOf(fullName, accountNumber) == Segments(w, Initial(w), Suffix(accountNumber))
  {
    var t := Trim(fullName);
    SegmentsFromWords(fullName, accountNumber);
    assert t[..WordEnd(t, 0)] == t;
    WordStartAt(t, 0, |t|);
    assert t[WordStart(t, |t|)..] == t;
  }

  /**
   * Empty cleaned words are not errors: a last word without letters puts
   * `undefined` in the middle, a first word without letters leaves the
   * first segment empty, so the address starts with the dot.
   */
  lemma EmptyCleanedWords(fullName: string, accountNumber: string)
    ensures var parts := SplitWs(Trim(fullName));
            var e := BuildEmail(fullName, accountNumber);
            && (Clean(parts[|parts| - 1]) == [] ==> SegmentsOf(fullName, accountNumber).initial == "undefined")
            && (Clean(parts[0]) == [] ==> e[0] == '.')
  {
    var g := SegmentsOf(fullName, accountNumber);
    assert BuildEmail(fullName, accountNumber) == Compose(g);
    ComposeEmptyFirst(g);
  }

  lemma ComposeEmptyFirst(g: Segments)
    ensures g.first == [] ==> Compose(g)[0] == '.'
  {
    var rest := "." + (g.initial + ("." + (g.suffix + ("@" + Domain))));
    assert rest[0] == '.';
    assert Compose(g) == g.first + rest;
  }

  /** Trimming the name first, as the driver does, does not change the address. */
  lemma BuildEmailOfTrimmed(fullName: string, accountNumber: string)
    ensures BuildEmail(Trim(fullName), accountNumber) == BuildEmail(fullName, accountNumber)
  {
    TrimIdempotent(fullName);
  }

  lemma JaneDoeWords()
    ensures SplitWs(Trim("Jane Doe")) == ["Jane", "Doe"]
  {
    assert Trimmed("Jane Doe");
    TrimOfTrimmed("Jane Doe");
    assert NoSpace("Jane") && NoSpace("Doe") && AllSpace(" ");
    SplitTwoWords("Jane", " ", "Doe");
    assert "Jane" + " " + "Doe" == "Jane Doe";
  }

  lemma JaneDoeCleaned()
    ensures Clean("Jane") == "jane" && Clean("Doe") == "doe"
  {
    CleanCapitalised("Jane");
    CleanCapitalised("Doe");
  }

  /** A two-word name: `Jane Doe` with account `0012345678` gets `jane.d.678@goodnews.com`. */
  lemma TwoWordExample()
    ensures BuildEmail("Jane Doe", "0012345678") == "jane.d.678@goodnews.com"
  {
    JaneDoeSegments();
    JaneDoeComposed();
  }

  lemma JaneDoeComposed()
    ensures Compose(Segments("jane", "d", "678")) == "jane.d.678@goodnews.com"
  {
  }

  lemma JaneDoeSegments()
    ensures SegmentsOf("Jane Doe", "0012345678") == Segments("jane", "d", "678")
  {
    JaneDoeWords();
    JaneDoeCleaned();
    SuffixOfLongNumber();
  }

  lemma MadonnaWords()
    ensures SplitWs(Trim("Madonna")) == ["Madonna"]
  {
    assert Trimmed("Madonna");
    TrimOfTrimmed("Madonna");
    assert NoSpace("Madonna");
    SplitOneWord("Madonna");
  }

  lemma MadonnaCleaned()
    ensures Clean("Madonna") == "madonna"
  {
    CleanCapitalised("Madonna");
  }

  /** A one-word name: `Madonna` with account `55` gets `madonna.m.55@goodnews.com`. */
  lemma OneWordExample()
    ensures BuildEmail("Madonna", "55") == "madonna.m.55@goodnews.com"
  {
    MadonnaSegments();
    MadonnaComposed();
  }

  lemma MadonnaComposed()
    ensures Compose(Segments("madonna", "m", "55")) == "madonna.m.55@goodnews.com"
  {
  }

  lemma MadonnaSegments()
    ensures SegmentsOf("Madonna", "55") == Segments("madonna", "m", "55")
  {
    MadonnaWords();
    MadonnaCleaned();
    SuffixOfShortNumber();
  }
}
