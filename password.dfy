/**
 * The password generator demo: the character sets, the secure random index,
 * `generatePassword` with its Fisher–Yates shuffle, the strength score, the
 * five-entry history and the rule that keeps one character class selected.
 *
 * The browser's `crypto.getRandomValues` is the `entropy` argument: `entropy(k)`
 * is the 32-bit word returned by the k-th draw of one generation.
 */
module PasswordGenerator {
  import Strings
  import Wrappers

  const Uppercase: string := "ABCDEFGHIJKLMNOPQRSTUVWXYZ"
  const Lowercase: string := "abcdefghijklmnopqrstuvwxyz"
  const Numbers: string := "0123456789"
  const Symbols: string := "!@#$%^&*()_+-=[]{}|;:,.<>?"

  /** What `generatePassword` shows when no class is selected ("select a character type"). */
  const Placeholder: string := "文字種を選択してください"
  /** The fragment of the placeholder that `handleGenerate` looks for. */
  const PlaceholderMarker: string := "文字種"

  const MaxHistory: nat := 5

  /** The value of one `Uint32Array` cell. */
  type Word = x: int | 0 <= x < 0x1_0000_0000

  datatype CharClass = Upper | Lower | Digit | Symbol

  datatype PasswordOptions =
    PasswordOptions(length: int, uppercase: bool, lowercase: bool, numbers: bool, symbols: bool)

  function CharSet(c: CharClass): string {
    match c
    case Upper => Uppercase
    case Lower => Lowercase
    case Digit => Numbers
    case Symbol => Symbols
  }

  predicate Enabled(o: PasswordOptions, c: CharClass) {
    match c
    case Upper => o.uppercase
    case Lower => o.lowercase
    case Digit => o.numbers
    case Symbol => o.symbols
  }

  function B2I(b: bool): nat { if b then 1 else 0 }

  /** The number of selected classes (`typesCount` in the strength score). */
  function EnabledCount(o: PasswordOptions): (n: nat)
    ensures n <= 4
  {
    B2I(o.uppercase) + B2I(o.lowercase) + B2I(o.numbers) + B2I(o.symbols)
  }

  predicate IsAsciiAlnum(ch: char) {
    ('A' <= ch <= 'Z') || ('a' <= ch <= 'z') || ('0' <= ch <= '9')
  }

  /** Where each set lies: letters and digits are the ASCII ranges, and no
      symbol is a letter or a digit. */
  lemma CharSetRanges(ch: char)
    ensures ch in Uppercase ==> 'A' <= ch <= 'Z'
    ensures ch in Lowercase ==> 'a' <= ch <= 'z'
    ensures ch in Numbers ==> '0' <= ch <= '9'
    ensures ch in Symbols ==> !IsAsciiAlnum(ch) && ch as int < 128
  {
    UppercaseRange(ch);
    LowercaseRange(ch);
    NumbersRange(ch);
    SymbolsRange(ch);
  }

  lemma UppercaseRange(ch: char)
    ensures ch in Uppercase ==> 'A' <= ch <= 'Z'
  {
  }

  lemma LowercaseRange(ch: char)
    ensures ch in Lowercase ==> 'a' <= ch <= 'z'
  {
  }

  lemma NumbersRange(ch: char)
    ensures ch in Numbers ==> '0' <= ch <= '9'
  {
  }

  lemma SymbolsRange(ch: char)
    ensures ch in Symbols ==> !IsAsciiAlnum(ch) && ch as int < 128
  {
  }

  /** The four sets share no character. */
  lemma CharSetsDisjoint(c: CharClass, d: CharClass, ch: char)
    requires c != d && ch in CharSet(c)
    ensures ch !in CharSet(d)
  {
    CharSetRanges(ch);
  }

  /** `getSecureRandomInt(max)`: a 32-bit word reduced modulo `max`. */
  function SecureRandomInt(word: Word, max: nat): (r: nat)
    requires max >= 1
    ensures r < max
  {
    word % max
  }

  /** The selected classes in the order `generatePassword` visits them. */
  function EnabledClasses(o: PasswordOptions): (r: seq<CharClass>)
    ensures |r| == EnabledCount(o)
    ensures forall c :: c in r <==> Enabled(o, c)
  {
    (if o.uppercase then [Upper] else []) +
    (if o.lowercase then [Lower] else []) +
    (if o.numbers then [Digit] else []) +
    (if o.symbols then [Symbol] else [])
  }

  /** The picks of the classes `cs`, the k-th with the k-th draw. */
  function PicksOf(cs: seq<CharClass>, entropy: nat -> Word): (r: seq<char>)
    ensures |r| == |cs|
  {
    if cs == [] then [] else PicksOf(cs[..|cs| - 1], entropy) + [Pick(cs[|cs| - 1], entropy(|cs| - 1))]
  }

  /** Each pick lies in the set of its own class. */
  lemma {:induction false} PicksOfInSets(cs: seq<CharClass>, entropy: nat -> Word)
    ensures forall k :: 0 <= k < |cs| ==> PicksOf(cs, entropy)[k] in CharSet(cs[k])
    decreases |cs|
  {
    if cs != [] {
      var init := cs[..|cs| - 1];
      PicksOfInSets(init, entropy);
      PickInSet(cs[|cs| - 1], entropy(|cs| - 1));
      forall k | 0 <= k < |cs| ensures PicksOf(cs, entropy)[k] in CharSet(cs[k]) {
        if k < |cs| - 1 {
          assert cs[k] == init[k];
        }
      }
    }
  }

  /** `requiredChars`: the k-th selected class contributes the character of its
      own set picked by the k-th draw. */
  function RequiredChars(o: PasswordOptions, entropy: nat -> Word): (r: seq<char>)
    ensures |r| == EnabledCount(o)
    ensures forall k :: 0 <= k < |r| ==> r[k] in CharSet(EnabledClasses(o)[k])
  {
    PicksOfInSets(EnabledClasses(o), entropy);
    PicksOf(EnabledClasses(o), entropy)
  }

  lemma PickInSet(c: CharClass, w: Word)
    ensures Pick(c, w) in CharSet(c)
  {
    var chars := CharSet(c);
    assert chars[SecureRandomInt(w, |chars|)] in chars;
  }

  /** `CHAR_SETS[c][getSecureRandomInt(CHAR_SETS[c].length)]` for the drawn word `w`. */
  function Pick(c: CharClass, w: Word): char {
    var chars := CharSet(c);
    chars[SecureRandomInt(w, |chars|)]
  }

  /** Every selected class has its character among the required ones. */
  lemma RequiredCharsCoverClasses(o: PasswordOptions, entropy: nat -> Word, c: CharClass)
    requires Enabled(o, c)
    ensures exists k :: 0 <= k < |RequiredChars(o, entropy)| && RequiredChars(o, entropy)[k] in CharSet(c)
  {
    var classes := EnabledClasses(o);
    var k :| 0 <= k < |classes| && classes[k] == c;
    assert RequiredChars(o, entropy)[k] in CharSet(c);
  }

  /** The sets of `cs`, each given by `f`, concatenated in order. */
  function Concat<T>(cs: seq<T>, f: T -> string): string {
    if cs == [] then [] else Concat(cs[..|cs| - 1], f) + f(cs[|cs| - 1])
  }

  /** The combined pool of the selected sets, in the order they are appended;
      it is empty exactly when no class is selected. */
  function Pool(o: PasswordOptions): (r: string)
    ensures |r| == 0 <==> EnabledCount(o) == 0
  {
    ConcatSetsEmpty(EnabledClasses(o));
    Concat(EnabledClasses(o), CharSet)
  }

  lemma {:induction false} ConcatMembership<T(!new)>(cs: seq<T>, f: T -> string, ch: char)
    ensures ch in Concat(cs, f) <==> exists c :: c in cs && ch in f(c)
    decreases |cs|
  {
    if cs != [] {
      var init := cs[..|cs| - 1];
      var last := cs[|cs| - 1];
      ConcatMembership(init, f, ch);
      assert cs == init + [last];
      assert last in cs;
      assert forall c :: c in init ==> c in cs;
      assert forall c :: c in cs ==> c in init || c == last;
    }
  }

  /** The sets are never empty, so the pool is empty only when nothing is selected. */
  lemma {:induction false} ConcatSetsEmpty(cs: seq<CharClass>)
    ensures |Concat(cs, CharSet)| == 0 <==> cs == []
    decreases |cs|
  {
    if cs != [] {
      CharSetNonEmpty(cs[|cs| - 1]);
    }
  }

  lemma CharSetNonEmpty(c: CharClass)
    ensures |CharSet(c)| > 0
  {
  }

  /** A character is in the pool exactly when one of the selected sets holds it,
      and the pool is empty exactly when nothing is selected. */
  lemma PoolMembership(o: PasswordOptions, ch: char)
    ensures ch in Pool(o) <==> exists c :: Enabled(o, c) && ch in CharSet(c)
    ensures |Pool(o)| == 0 <==> EnabledCount(o) == 0
  {
    ConcatMembership(EnabledClasses(o), CharSet, ch);
    ConcatSetsEmpty(EnabledClasses(o));
  }

  /** A password character never belongs to a class that was not selected. */
  lemma PoolExcludesDisabled(o: PasswordOptions, c: CharClass, ch: char)
    requires !Enabled(o, c) && ch in Pool(o)
    ensures ch !in CharSet(c)
  {
    PoolMembership(o, ch);
    var d :| Enabled(o, d) && ch in CharSet(d);
    CharSetsDisjoint(d, c, ch);
  }

  function Max(a: int, b: int): int { if a >= b then a else b }

  /** The Fisher–Yates loop of `generatePassword`: `i` runs from the last index
      down to 1 and is swapped with a drawn `j` in [0, i]. */
  method FisherYatesShuffle(a: array<char>, entropy: nat -> Word, start: nat) returns (next: nat)
    modifies a
    ensures multiset(a[..]) == multiset(old(a[..]))
    ensures next == start + Max(a.Length - 1, 0)
  {
    var i := a.Length - 1;
    next := start;
    while i > 0
      invariant -1 <= i < a.Length
      invariant next == start + (Max(a.Length - 1, 0) - Max(i, 0))
      invariant multiset(a[..]) == multiset(old(a[..]))
    {
      var j := SecureRandomInt(entropy(next), i + 1);
      a[i], a[j] := a[j], a[i];
      next := next + 1;
      i := i - 1;
    }
  }

  /** `generatePassword`: one character of every selected class drawn from that
      class's own set, the rest of the length drawn from the pool, then shuffled. */
  method GeneratePassword(options: PasswordOptions, entropy: nat -> Word) returns (password: string)
    ensures EnabledCount(options) == 0 ==> password == Placeholder
    ensures EnabledCount(options) > 0 ==> |password| == Max(options.length, EnabledCount(options))
    ensures EnabledCount(options) > 0 ==> multiset(RequiredChars(options, entropy)) <= multiset(password)
    ensures EnabledCount(options) > 0 ==> forall i :: 0 <= i < |password| ==> password[i] in Pool(options)
  {
    // The four `if (options.X)` steps append the selected sets and picks in order.
    var charset := Pool(options);
    var requiredChars := RequiredChars(options, entropy);
    var next := EnabledCount(options);
    if |charset| == 0 {
      PoolMembership(options, 'A');
      return Placeholder;
    }

    RequiredCharsInPool(options, entropy);
    var passwordArray;
    passwordArray, next := FillFromPool(requiredChars, charset, options.length - |requiredChars|, entropy, next);

    var a := new char[|passwordArray|](k requires 0 <= k < |passwordArray| => passwordArray[k]);
    assert a[..] == passwordArray;
    next := FisherYatesShuffle(a, entropy, next);
    password := a[..];
    PrefixMultiset(passwordArray, requiredChars);
    PermutationStaysIn(passwordArray, password, charset);
  }

  /** The fill loop of `generatePassword`: after the required characters, one
      pool character per remaining position, each drawn with the next word. */
  method FillFromPool(requiredChars: string, charset: string, remainingLength: int, entropy: nat -> Word, start: nat)
    returns (passwordArray: string, next: nat)
    requires |charset| > 0
    requires forall k :: 0 <= k < |requiredChars| ==> requiredChars[k] in charset
    ensures |passwordArray| == |requiredChars| + Max(remainingLength, 0)
    ensures passwordArray[..|requiredChars|] == requiredChars
    ensures forall k :: |requiredChars| <= k < |passwordArray| ==>
              passwordArray[k] == charset[SecureRandomInt(entropy(start + k - |requiredChars|), |charset|)]
    ensures forall k :: 0 <= k < |passwordArray| ==> passwordArray[k] in charset
    ensures next == start + Max(remainingLength, 0)
  {
    passwordArray := requiredChars;
    next := start;
    var i := 0;
    while i < remainingLength
      invariant 0 <= i <= Max(remainingLength, 0)
      invariant next == start + i
      invariant |passwordArray| == |requiredChars| + i
      invariant passwordArray[..|requiredChars|] == requiredChars
      invariant forall k :: |requiredChars| <= k < |passwordArray| ==>
                  passwordArray[k] == charset[SecureRandomInt(entropy(start + k - |requiredChars|), |charset|)]
      invariant forall k :: 0 <= k < |passwordArray| ==> passwordArray[k] in charset
    {
      var randomIndex := SecureRandomInt(entropy(next), |charset|);
      passwordArray := passwordArray + [charset[randomIndex]];
      next := next + 1;
      i := i + 1;
    }
  }

  /** A permutation of characters taken from `charset` still takes them all
      from `charset`. */
  lemma PermutationStaysIn(before: string, after: string, charset: string)
    requires multiset(after) == multiset(before)
    requires forall k :: 0 <= k < |before| ==> before[k] in charset
    ensures forall k :: 0 <= k < |after| ==> after[k] in charset
  {
    forall k | 0 <= k < |after| ensures after[k] in charset {
      assert after[k] in multiset(before);
      var j :| 0 <= j < |before| && before[j] == after[k];
    }
  }

  /** Every required character is a pool character. */
  lemma RequiredCharsInPool(o: PasswordOptions, entropy: nat -> Word)
    ensures forall k :: 0 <= k < |RequiredChars(o, entropy)| ==> RequiredChars(o, entropy)[k] in Pool(o)
  {
    var req := RequiredChars(o, entropy);
    var classes := EnabledClasses(o);
    forall k | 0 <= k < |req| ensures req[k] in Pool(o) {
      PoolMembership(o, req[k]);
      assert Enabled(o, classes[k]) && req[k] in CharSet(classes[k]);
    }
  }

  lemma PrefixMultiset(s: seq<char>, p: seq<char>)
    requires |p| <= |s| && s[..|p|] == p
    ensures multiset(p) <= multiset(s)
  {
    assert s == p + s[|p|..];
  }

  /** What a generated password guarantees about classes: every selected class
      occurs in it, and no character of an unselected class does. */
  lemma GeneratedCoversClasses(options: PasswordOptions, entropy: nat -> Word, password: string)
    requires EnabledCount(options) > 0
    requires multiset(RequiredChars(options, entropy)) <= multiset(password)
    requires forall i :: 0 <= i < |password| ==> password[i] in Pool(options)
    ensures forall c :: Enabled(options, c) ==>
              exists i :: 0 <= i < |password| && password[i] in CharSet(c)
    ensures forall c, i :: !Enabled(options, c) && 0 <= i < |password| ==> password[i] !in CharSet(c)
  {
    forall c | Enabled(options, c) ensures exists i :: 0 <= i < |password| && password[i] in CharSet(c) {
      RequiredCharsCoverClasses(options, entropy, c);
      var req := RequiredChars(options, entropy);
      var k :| 0 <= k < |req| && req[k] in CharSet(c);
      assert req[k] in multiset(req);
      assert req[k] in multiset(password);
      var i :| 0 <= i < |password| && password[i] == req[k];
    }
    forall c, i | !Enabled(options, c) && 0 <= i < |password| ensures password[i] !in CharSet(c) {
      PoolExcludesDisabled(options, c, password[i]);
    }
  }

  // ---------------------------------------------------------------------------
  // Strength score

  datatype Tier = Weak | Fair | Good | Strong

  /** `PasswordStrength`: the score with its label and CSS class. */
  datatype Strength = Strength(score: int, labelText: string, className: string)

  /** One point for each of the lengths 8, 12, 16 and 24 that is reached. */
  function LengthScore(n: nat): (k: nat)
    ensures k <= 4
  {
    B2I(n >= 8) + B2I(n >= 12) + B2I(n >= 16) + B2I(n >= 24)
  }

  function TierOf(score: int): Tier {
    if score <= 3 then Weak else if score <= 5 then Fair else if score <= 7 then Good else Strong
  }

  function TierLabel(t: Tier): string {
    match t
    case Weak => "弱い"
    case Fair => "普通"
    case Good => "良好"
    case Strong => "強力"
  }

  function TierClass(t: Tier): string {
    match t
    case Weak => "strength-weak"
    case Fair => "strength-fair"
    case Good => "strength-good"
    case Strong => "strength-strong"
  }

  /** `calculateStrength`: one point per length threshold reached and one per
      selected class; the tier is cut at 3, 5 and 7. */
  function CalculateStrength(password: string, options: PasswordOptions): (s: Strength)
    ensures 0 <= s.score <= 8
    ensures s.score == LengthScore(|password|) + EnabledCount(options)
    ensures s.labelText == TierLabel(TierOf(s.score)) && s.className == TierClass(TierOf(s.score))
  {
    var score := LengthScore(|password|) + EnabledCount(options);
    var tier := TierOf(score);
    Strength(score, TierLabel(tier), TierClass(tier))
  }

  /** The tiers partition the score range in order: weak is 0..3, fair 4..5,
      good 6..7 and strong 8. */
  lemma TierRanges(score: int)
    requires 0 <= score <= 8
    ensures TierOf(score) == Weak <==> score <= 3
    ensures TierOf(score) == Fair <==> 4 <= score <= 5
    ensures TierOf(score) == Good <==> 6 <= score <= 7
    ensures TierOf(score) == Strong <==> score == 8
  {
  }

  function TierRank(t: Tier): nat {
    match t
    case Weak => 0
    case Fair => 1
    case Good => 2
    case Strong => 3
  }

  /** A longer password with the same options never scores or ranks lower. */
  lemma StrengthMonotoneInLength(p: string, q: string, options: PasswordOptions)
    requires |p| <= |q|
    ensures CalculateStrength(p, options).score <= CalculateStrength(q, options).score
    ensures TierRank(TierOf(CalculateStrength(p, options).score)) <= TierRank(TierOf(CalculateStrength(q, options).score))
  {
  }

  /** Only a password of at least 24 characters with all four classes is strong. */
  lemma StrongExactly(password: string, options: PasswordOptions)
    ensures CalculateStrength(password, options).className == "strength-strong" <==>
            |password| >= 24 && EnabledCount(options) == 4
  {
    var s := CalculateStrength(password, options);
    if s.className == "strength-strong" {
      assert TierOf(s.score) == Strong by {
        assert TierClass(Weak)[9] != TierClass(Strong)[9];
        assert TierClass(Fair)[9] != TierClass(Strong)[9];
        assert TierClass(Good)[9] != TierClass(Strong)[9];
      }
    }
  }

  // ---------------------------------------------------------------------------
  // History

  predicate NoDuplicates<T(==)>(s: seq<T>) {
    forall i, j :: 0 <= i < j < |s| ==> s[i] != s[j]
  }

  /** `addToHistory` on a list: a present entry leaves it as it is; otherwise the
      password goes first and the last entry is dropped past `MaxHistory`. */
  function AddedHistory(h: seq<string>, password: string): (r: seq<string>)
    ensures password in h ==> r == h
    ensures password !in h ==> |h| < MaxHistory ==> r == [password] + h
    ensures password !in h ==> |h| >= MaxHistory ==> r == [password] + h[..|h| - 1]
  {
    if password in h then h
    else
      var pushed := [password] + h;
      if |pushed| > MaxHistory then pushed[..|pushed| - 1] else pushed
  }

  /** The history invariant survives every addition, the newest entry comes
      first, and nothing but the password is ever added. */
  lemma AddedHistoryInvariant(h: seq<string>, password: string)
    requires |h| <= MaxHistory && NoDuplicates(h)
    ensures |AddedHistory(h, password)| <= MaxHistory
    ensures NoDuplicates(AddedHistory(h, password))
    ensures password in AddedHistory(h, password)
    ensures password !in h ==> AddedHistory(h, password)[0] == password
    ensures forall x :: x in AddedHistory(h, password) ==> x == password || x in h
  {
    var r := AddedHistory(h, password);
    if password !in h {
      forall i, j | 0 <= i < j < |r| ensures r[i] != r[j] {
        if i == 0 {
          assert r[j] == h[j - 1];
        } else {
          assert r[i] == h[i - 1] && r[j] == h[j - 1];
        }
      }
      forall x | x in r ensures x == password || x in h {
        var k :| 0 <= k < |r| && r[k] == x;
        if k > 0 { assert x == h[k - 1]; }
      }
    }
  }

  /** Adding the same password twice is the same as adding it once. */
  lemma AddedHistoryIdempotent(h: seq<string>, password: string)
    ensures AddedHistory(AddedHistory(h, password), password) == AddedHistory(h, password)
  {
    var r := AddedHistory(h, password);
    if password !in h {
      assert r[0] == password;
    }
  }

  /** The module-level `passwordHistory`. */
  class PasswordHistory {
    var entries: seq<string>

    ghost predicate Valid()
      reads this
    {
      |entries| <= MaxHistory && NoDuplicates(entries)
    }

    constructor ()
      ensures Valid() && entries == []
    {
      entries := [];
    }

    /** `addToHistory`. */
    method Add(password: string)
      requires Valid()
      modifies this
      ensures Valid()
      ensures entries == AddedHistory(old(entries), password)
    {
      AddedHistoryInvariant(entries, password);
      if password in entries {
        return;
      }
      entries := [password] + entries;
      if |entries| > MaxHistory {
        entries := entries[..|entries| - 1];
      }
    }

    /** `clearHistory`. */
    method Clear()
      modifies this
      ensures Valid() && entries == []
    {
      entries := [];
    }
  }

  /** Pool characters are ASCII. */
  lemma PoolAscii(o: PasswordOptions)
    ensures forall ch :: ch in Pool(o) ==> ch as int < 128
  {
    forall ch | ch in Pool(o) ensures ch as int < 128 {
      PoolMembership(o, ch);
      CharSetRanges(ch);
    }
  }

  /** No generated password contains the placeholder's marker: the marker starts
      with a character outside every set. */
  lemma PasswordLacksMarker(options: PasswordOptions, password: string)
    requires forall i :: 0 <= i < |password| ==> password[i] in Pool(options)
    ensures !Strings.Includes(password, PlaceholderMarker)
  {
    PoolAscii(options);
    AsciiLacksMarker(password);
  }

  lemma AsciiLacksMarker(s: string)
    requires forall i :: 0 <= i < |s| ==> s[i] as int < 128
    ensures !Strings.Includes(s, PlaceholderMarker)
  {
    var m := PlaceholderMarker;
    MarkerHead();
    Strings.IncludesIff(s, m);
    forall i | 0 <= i <= |s| - |m| ensures !Strings.OccursAt(s, m, i) {
      assert s[i..i + |m|][0] == s[i];
    }
  }

  lemma MarkerHead()
    ensures |PlaceholderMarker| > 0 && PlaceholderMarker[0] as int >= 128
  {
  }

  lemma PlaceholderHasMarker()
    ensures Strings.Includes(Placeholder, PlaceholderMarker)
  {
    Strings.IncludesIff(Placeholder, PlaceholderMarker);
    assert Strings.OccursAt(Placeholder, PlaceholderMarker, 0);
  }

  /** `handleGenerate`: generate, and when the result is a real password, score
      it and record it. The placeholder is never scored or recorded. */
  method HandleGenerate(history: PasswordHistory, options: PasswordOptions, entropy: nat -> Word)
    returns (password: string, strength: Wrappers.Option<Strength>)
    requires history.Valid()
    modifies history
    ensures history.Valid()
    ensures EnabledCount(options) == 0 ==>
              password == Placeholder && strength.None? && history.entries == old(history.entries)
    ensures EnabledCount(options) > 0 ==>
              strength == Wrappers.Some(CalculateStrength(password, options)) &&
              history.entries == AddedHistory(old(history.entries), password)
    ensures EnabledCount(options) > 0 ==> |password| == Max(options.length, EnabledCount(options))
    ensures EnabledCount(options) > 0 ==> multiset(RequiredChars(options, entropy)) <= multiset(password)
    ensures EnabledCount(options) > 0 ==> forall i :: 0 <= i < |password| ==> password[i] in Pool(options)
  {
    password := GeneratePassword(options, entropy);
    if EnabledCount(options) == 0 {
      PlaceholderHasMarker();
    } else {
      PasswordLacksMarker(options, password);
    }
    if !Strings.Includes(password, PlaceholderMarker) {
      strength := Wrappers.Some(CalculateStrength(password, options));
      history.Add(password);
    } else {
      strength := Wrappers.None;
    }
  }

  // ---------------------------------------------------------------------------
  // The at-least-one-checkbox rule

  function WithClass(o: PasswordOptions, c: CharClass, on: bool): (r: PasswordOptions)
    ensures Enabled(r, c) == on
    ensures forall d :: d != c ==> Enabled(r, d) == Enabled(o, d)
    ensures r.length == o.length
  {
    match c
    case Upper => o.(uppercase := on)
    case Lower => o.(lowercase := on)
    case Digit => o.(numbers := on)
    case Symbol => o.(symbols := on)
  }

  /** The `change` listener of checkbox `changed`: if no box is left checked,
      the one just changed is checked again. */
  function EnforceAtLeastOne(o: PasswordOptions, changed: CharClass): (r: PasswordOptions)
    ensures EnabledCount(r) >= 1
    ensures EnabledCount(o) >= 1 ==> r == o
    ensures EnabledCount(o) == 0 ==> EnabledClasses(r) == [changed]
  {
    if EnabledCount(o) >= 1 then o else WithClass(o, changed, true)
  }

  // ---------------------------------------------------------------------------
  // A concrete configuration

  /** Length 12 with upper, lower and digits: twelve ASCII letters or digits,
      with at least one of each of the three classes. */
  method ScenarioAlnum12(entropy: nat -> Word) returns (password: string)
    ensures |password| == 12
    ensures forall i :: 0 <= i < |password| ==> IsAsciiAlnum(password[i])
    ensures exists i :: 0 <= i < |password| && 'A' <= password[i] <= 'Z'
    ensures exists i :: 0 <= i < |password| && 'a' <= password[i] <= 'z'
    ensures exists i :: 0 <= i < |password| && '0' <= password[i] <= '9'
  {
    var options := PasswordOptions(12, true, true, true, false);
    password := GeneratePassword(options, entropy);
    GeneratedCoversClasses(options, entropy, password);
    forall i | 0 <= i < |password| ensures IsAsciiAlnum(password[i]) {
      AlnumPool(options, password[i]);
    }
    assert Enabled(options, Upper) && Enabled(options, Lower) && Enabled(options, Digit);
    var u :| 0 <= u < |password| && password[u] in CharSet(Upper);
    var l :| 0 <= l < |password| && password[l] in CharSet(Lower);
    var d :| 0 <= d < |password| && password[d] in CharSet(Digit);
    UppercaseRange(password[u]);
    LowercaseRange(password[l]);
    NumbersRange(password[d]);
  }

  /** Without symbols, every pool character is an ASCII letter or digit. */
  lemma AlnumPool(o: PasswordOptions, ch: char)
    requires !o.symbols && ch in Pool(o)
    ensures IsAsciiAlnum(ch)
  {
    PoolMembership(o, ch);
    var c :| Enabled(o, c) && ch in CharSet(c);
    match c
    case Upper => UppercaseRange(ch);
    case Lower => LowercaseRange(ch);
    case Digit => NumbersRange(ch);
  }
}
