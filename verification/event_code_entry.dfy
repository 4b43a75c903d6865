/**
 The event-code form: a text field capped at eight UTF-16 code units, a
 submit button enabled from four code units on, and a submit handler that
 passes the upper-cased code on when it is not blank.
 */
module EventCodeEntry {
  import opened Wrappers
  import opened Seqs

  /** Longest value the field accepts from typing. */
  const MaxLength: nat := 8

  /** Shortest value for which the submit button is enabled. */
  const MinLength: nat := 4

  /** The demo code the "Try demo code" link fills in. */
  const DemoCode: string := "FEST2024"

  /**
   The characters JavaScript's `trim` removes: the WhiteSpace code points
   (tab, vertical tab, form feed, zero-width no-break space and the Space
   Separator category) and the LineTerminator code points (line feed,
   carriage return, line and paragraph separators).
   */
  predicate IsWhiteSpace(c: char)
  {
    || '\t' <= c <= '\r'
    || c == ' ' || c == '\U{A0}' || c == '\U{1680}'
    || '\U{2000}' <= c <= '\U{200A}'
    || c == '\U{2028}' || c == '\U{2029}' || c == '\U{202F}' || c == '\U{205F}'
    || c == '\U{3000}' || c == '\U{FEFF}'
  }

  /** Every character of `s` is white space (vacuously so for ""). */
  predicate AllWhiteSpace(s: string)
  {
    forall i :: 0 <= i < |s| ==> IsWhiteSpace(s[i])
  }

  /** The first index at or after `i` that holds no white space, or `|s|`. */
  function SkipSpaceForward(s: string, i: nat): (j: nat)
    requires i <= |s|
    ensures i <= j <= |s|
    ensures forall k :: i <= k < j ==> IsWhiteSpace(s[k])
    ensures j < |s| ==> !IsWhiteSpace(s[j])
    decreases |s| - i
  {
    if i < |s| && IsWhiteSpace(s[i]) then SkipSpaceForward(s, i + 1) else i
  }

  /**
   The end of `s[lo..j]` once its trailing white space is dropped: the
   smallest index down to `lo` from which everything before `j` is white space.
   */
  function SkipSpaceBackward(s: string, lo: nat, j: nat): (i: nat)
    requires lo <= j <= |s|
    ensures lo <= i <= j
    ensures forall k :: i <= k < j ==> IsWhiteSpace(s[k])
    ensures lo < i ==> !IsWhiteSpace(s[i - 1])
    decreases j
  {
    if lo < j && IsWhiteSpace(s[j - 1]) then SkipSpaceBackward(s, lo, j - 1) else j
  }

  /** Number of white-space characters `s` starts with. */
  function LeadingSpace(s: string): (n: nat)
    ensures n <= |s|
    ensures forall k :: 0 <= k < n ==> IsWhiteSpace(s[k])
    ensures n < |s| ==> !IsWhiteSpace(s[n])
  {
    SkipSpaceForward(s, 0)
  }

  /**
   `trim`: `s` with its leading and trailing white space removed. The result
   starts right after the leading white space, everything after it is white
   space, and it neither starts nor ends with white space.
   */
  function Trim(s: string): (t: string)
    ensures LeadingSpace(s) + |t| <= |s|
    ensures t == s[LeadingSpace(s)..LeadingSpace(s) + |t|]
    ensures forall k :: LeadingSpace(s) + |t| <= k < |s| ==> IsWhiteSpace(s[k])
    ensures |t| > 0 ==> !IsWhiteSpace(t[0]) && !IsWhiteSpace(t[|t| - 1])
  {
    var a := LeadingSpace(s);
    var b := SkipSpaceBackward(s, a, |s|);
    assert a < b ==> !IsWhiteSpace(s[a]);
    s[a..b]
  }

  /** A code trims to "" exactly when it consists of white space only. */
  lemma {:induction false} TrimEmptyIff(s: string)
    ensures Trim(s) == "" <==> AllWhiteSpace(s)
  {
    var a := LeadingSpace(s);
    if a < |s| {
      assert !IsWhiteSpace(s[a]);
    }
  }

  /** A lower-case ASCII letter. */
  predicate IsLower(c: char)
  {
    'a' <= c <= 'z'
  }

  /** ASCII upper-casing of one character; all other characters are kept. */
  function UpperChar(c: char): (u: char)
    ensures !IsLower(u)
    ensures IsLower(c) ==> 'A' <= u <= 'Z' && u as int == c as int - 32
    ensures !IsLower(c) ==> u == c
  {
    if IsLower(c) then (c as int - 32) as char else c
  }

  /**
   `u` is `s` upper-cased: same length, each lower-case ASCII letter replaced
   by its capital, every other character kept.
   */
  predicate IsUpperCaseOf(u: string, s: string)
  {
    && |u| == |s|
    && forall i :: 0 <= i < |s| ==>
         if IsLower(s[i]) then u[i] as int == s[i] as int - 32 else u[i] == s[i]
  }

  /** `toUpperCase` on the ASCII letters: no lower-case letter is left. */
  function ToUpper(s: string): (u: string)
    ensures IsUpperCaseOf(u, s)
    ensures forall i :: 0 <= i < |u| ==> !IsLower(u[i])
  {
    seq(|s|, i requires 0 <= i < |s| => UpperChar(s[i]))
  }

  /** Upper-casing twice is upper-casing once. */
  lemma ToUpperIdempotent(s: string)
    ensures ToUpper(ToUpper(s)) == ToUpper(s)
  {
  }

  /** A string without lower-case letters is its own upper-case form. */
  lemma ToUpperKeepsUpper(s: string)
    requires forall i :: 0 <= i < |s| ==> !IsLower(s[i])
    ensures ToUpper(s) == s
  {
  }

  /**
   Submitting the form: a blank code (trimming to "") is dropped; any other
   code is passed on upper-cased but untrimmed.
   */
  function HandleSubmit(code: string): (r: Option<string>)
    ensures r.Some? <==> !AllWhiteSpace(code)
    ensures r.Some? ==> IsUpperCaseOf(r.value, code)
    ensures r.Some? ==> forall i :: 0 <= i < |r.value| ==> !IsLower(r.value[i])
  {
    TrimEmptyIff(code);
    if Trim(code) != "" then Some(ToUpper(code)) else None
  }

  /** True for characters of the Basic Multilingual Plane, one UTF-16 code unit each. */
  predicate InBmp(c: char)
  {
    c as int < 0x10000
  }

  /** Code units `c` takes in UTF-16: two (a surrogate pair) outside the BMP. */
  function CodeUnits(c: char): nat
  {
    if InBmp(c) then 1 else 2
  }

  /** UTF-16 length of the first `k` characters of `s`. */
  function PrefixUnits(s: string, k: nat): (n: nat)
    requires k <= |s|
    ensures k <= n <= 2 * k
  {
    if k == 0 then 0 else PrefixUnits(s, k - 1) + CodeUnits(s[k - 1])
  }

  /**
   JavaScript's `length` of a string: its number of UTF-16 code units, which
   counts every character outside the BMP (an emoji, say) twice.
   */
  function Utf16Length(s: string): (n: nat)
    ensures |s| <= n <= 2 * |s|
  {
    PrefixUnits(s, |s|)
  }

  /** A longer prefix never has fewer code units. */
  lemma {:induction false} PrefixUnitsMonotone(s: string, k: nat, j: nat)
    requires k <= j <= |s|
    ensures PrefixUnits(s, k) <= PrefixUnits(s, j)
    decreases j
  {
    if k < j {
      PrefixUnitsMonotone(s, k, j - 1);
    }
  }

  /** The code units of a prefix are counted the same inside the whole string. */
  lemma {:induction false} PrefixUnitsOfPrefix(s: string, k: nat)
    requires k <= |s|
    ensures Utf16Length(s[..k]) == PrefixUnits(s, k)
  {
    PrefixUnitsAgree(s, k, k);
  }

  /** Counting the first `j` characters gives the same on any longer prefix. */
  lemma {:induction false} PrefixUnitsAgree(s: string, k: nat, j: nat)
    requires j <= k <= |s|
    ensures PrefixUnits(s[..k], j) == PrefixUnits(s, j)
    decreases j
  {
    if j > 0 {
      PrefixUnitsAgree(s, k, j - 1);
      assert s[..k][j - 1] == s[j - 1];
    }
  }

  /** A prefix has one code unit per character exactly when it lies in the BMP. */
  lemma {:induction false} BmpUnits(s: string, k: nat)
    requires k <= |s|
    ensures PrefixUnits(s, k) == k <==> forall i :: 0 <= i < k ==> InBmp(s[i])
    decreases k
  {
    if k > 0 {
      BmpUnits(s, k - 1);
    }
  }

  /** A string of characters outside the BMP has two code units per character. */
  lemma {:induction false} AstralUnits(s: string, k: nat)
    requires k <= |s|
    requires forall i :: 0 <= i < |s| ==> !InBmp(s[i])
    ensures PrefixUnits(s, k) == 2 * k
    decreases k
  {
    if k > 0 {
      AstralUnits(s, k - 1);
    }
  }

  /**
   The submit button is enabled once the code is four UTF-16 code units long,
   spaces included: always from four characters on, never below two, and for
   text within the BMP exactly from four characters on.
   */
  function SubmitEnabled(code: string): (enabled: bool)
    ensures |code| >= MinLength ==> enabled
    ensures enabled ==> 2 * |code| >= MinLength
    ensures (forall i :: 0 <= i < |code| ==> InBmp(code[i])) ==> (enabled <==> |code| >= MinLength)
  {
    BmpUnits(code, |code|);
    Utf16Length(code) >= MinLength
  }

  /**
   What reaches the festival screen from the form: nothing while the button is
   disabled (the browser submits neither by click nor by Enter), otherwise
   whatever the handler passes on.
   */
  function Submission(code: string): (r: Option<string>)
    ensures r.Some? <==> Utf16Length(code) >= MinLength && !AllWhiteSpace(code)
    ensures r.Some? ==> r == HandleSubmit(code)
  {
    if SubmitEnabled(code) then HandleSubmit(code) else None
  }

  /** A code of four or more blanks enables the button yet is never submitted. */
  lemma BlankCodeEnabledButDropped(code: string)
    requires |code| >= MinLength && AllWhiteSpace(code)
    ensures SubmitEnabled(code) && HandleSubmit(code) == None && Submission(code) == None
  {
  }

  /** Surrounding white space is kept in the submitted code. */
  lemma SubmittedCodeIsNotTrimmed()
    ensures Submission(" fest ") == Some(" FEST ")
  {
    assert !IsWhiteSpace(" fest "[1]);
    assert ToUpper(" fest ") == " FEST ";
  }

  /**
   The end of the longest prefix of `typed` from `k` on that fits in
   `MaxLength` code units without splitting a character.
   */
  function CapEnd(typed: string, k: nat): (e: nat)
    requires k <= |typed| && PrefixUnits(typed, k) <= MaxLength
    ensures k <= e <= |typed|
    ensures PrefixUnits(typed, e) <= MaxLength
    ensures e < |typed| ==> PrefixUnits(typed, e + 1) > MaxLength
    decreases |typed| - k
  {
    if k < |typed| && PrefixUnits(typed, k + 1) <= MaxLength then CapEnd(typed, k + 1) else k
  }

  /**
   The field's value after `typed` is inserted into the empty field in one
   edit, as a paste is: the browser's `maxLength` of eight UTF-16 code units
   keeps the longest prefix that fits, so the next character, if any, would
   overflow the cap. Line breaks, which the field never holds, are not
   treated specially.
   */
  function CapInput(typed: string): (v: string)
    ensures Utf16Length(v) <= MaxLength
    ensures v <= typed
    ensures Utf16Length(typed) <= MaxLength ==> v == typed
    ensures |v| < |typed| ==> Utf16Length(typed[..|v| + 1]) > MaxLength
  {
    var e := CapEnd(typed, 0);
    PrefixUnitsOfPrefix(typed, e);
    if e < |typed| then
      PrefixUnitsOfPrefix(typed, e + 1);
      PrefixUnitsMonotone(typed, e + 1, |typed|);
      typed[..e]
    else
      typed[..e]
  }

  /** The longest fitting prefix is unique: any prefix that fits and cannot grow is the cut. */
  lemma CapInputUnique(typed: string, k: nat)
    requires k <= |typed| && Utf16Length(typed[..k]) <= MaxLength
    requires k < |typed| ==> Utf16Length(typed[..k + 1]) > MaxLength
    ensures CapInput(typed) == typed[..k]
  {
    var v := CapInput(typed);
    PrefixUnitsOfPrefix(typed, k);
    PrefixUnitsOfPrefix(typed, |v|);
    if |v| < k {
      PrefixUnitsOfPrefix(typed, |v| + 1);
      PrefixUnitsMonotone(typed, |v| + 1, k);
    }
    if k < |v| {
      PrefixUnitsOfPrefix(typed, k + 1);
      PrefixUnitsMonotone(typed, k + 1, |v|);
    }
  }

  /** On text within the BMP the cap is a plain cut at eight characters. */
  lemma CapInputBmp(typed: string)
    requires forall i :: 0 <= i < |typed| ==> InBmp(typed[i])
    ensures CapInput(typed) == if |typed| <= MaxLength then typed else typed[..MaxLength]
  {
    var v := CapInput(typed);
    BmpUnits(typed, |typed|);
    BmpUnits(v, |v|);
    if |typed| > MaxLength {
      BmpUnits(typed[..|v| + 1], |v| + 1);
    }
  }

  /** Appending a character adds its code units to the UTF-16 length. */
  lemma Utf16Append(v: string, c: char)
    ensures Utf16Length(v + [c]) == Utf16Length(v) + CodeUnits(c)
  {
    PrefixUnitsAgree(v + [c], |v|, |v|);
    assert (v + [c])[..|v|] == v;
  }

  /**
   The field's value after typing `keys` one key at a time into a field that
   holds `v`: the browser refuses a key that would take the value past
   `MaxLength` code units, and still accepts the keys after it. The value
   only grows, keeps what it held, and nothing is refused while two code
   units are still free at the end. Enter, which submits the form, is not a
   key here.
   */
  function TypeKeys(v: string, keys: string): (w: string)
    requires Utf16Length(v) <= MaxLength
    ensures Utf16Length(v) <= Utf16Length(w) <= MaxLength
    ensures |v| <= |w| && w[..|v|] == v
    ensures Utf16Length(w) + 2 <= MaxLength ==> w == v + keys
    decreases |keys|
  {
    if |keys| == 0 then
      assert v[|v|..] == [];
      v
    else
      var c := keys[0];
      Utf16Append(v, c);
      if Utf16Length(v) + CodeUnits(c) <= MaxLength then
        var u := v + [c];
        var w := TypeKeys(u, keys[1..]);
        assert w[..|v|] == w[..|u|][..|v|];
        assert u + keys[1..] == v + keys;
        w
      else
        TypeKeys(v, keys[1..])
  }

  /** What typing adds to the field is a subsequence of the keys, in typing order. */
  lemma {:induction false} TypedKeysAreSubsequence(v: string, keys: string)
    requires Utf16Length(v) <= MaxLength
    ensures IsSubsequence(TypeKeys(v, keys)[|v|..], keys)
    decreases |keys|
  {
    var w := TypeKeys(v, keys);
    if |keys| == 0 {
      assert w[|v|..] == [];
    } else {
      var c := keys[0];
      Utf16Append(v, c);
      if Utf16Length(v) + CodeUnits(c) <= MaxLength {
        var u := v + [c];
        TypedKeysAreSubsequence(u, keys[1..]);
        assert w == TypeKeys(u, keys[1..]);
        assert w[|v|..] == [c] + w[|u|..];
        assert ([c] + w[|u|..])[1..] == w[|u|..];
      } else {
        TypedKeysAreSubsequence(v, keys[1..]);
      }
    }
  }

  /** Typing `a` and then `b` is typing `a + b`. */
  lemma {:induction false} TypeKeysAppend(v: string, a: string, b: string)
    requires Utf16Length(v) <= MaxLength
    ensures TypeKeys(v, a + b) == TypeKeys(TypeKeys(v, a), b)
    decreases |a|
  {
    if |a| == 0 {
      assert a + b == b;
    } else {
      assert (a + b)[0] == a[0] && (a + b)[1..] == a[1..] + b;
      Utf16Append(v, a[0]);
      if Utf16Length(v) + CodeUnits(a[0]) <= MaxLength {
        TypeKeysAppend(v + [a[0]], a[1..], b);
      } else {
        TypeKeysAppend(v, a[1..], b);
      }
    }
  }

  /** Typing text within the BMP keeps exactly its first characters up to the cap. */
  lemma {:induction false} TypeKeysBmp(v: string, keys: string)
    requires forall i :: 0 <= i < |v| ==> InBmp(v[i])
    requires forall i :: 0 <= i < |keys| ==> InBmp(keys[i])
    requires |v| <= MaxLength
    ensures Utf16Length(v) == |v| &&
      TypeKeys(v, keys) == if |v| + |keys| <= MaxLength then v + keys else (v + keys)[..MaxLength]
    decreases |keys|
  {
    BmpUnits(v, |v|);
    if |keys| == 0 {
      assert v + keys == v;
    } else {
      var c := keys[0];
      Utf16Append(v, c);
      if |v| < MaxLength {
        var u := v + [c];
        assert u + keys[1..] == v + keys;
        TypeKeysBmp(u, keys[1..]);
      } else {
        TypeKeysBmp(v, keys[1..]);
        assert (v + keys)[..MaxLength] == v;
        assert (v + keys[1..])[..MaxLength] == v;
        assert v + keys[1..] == v || |keys[1..]| > 0;
      }
    }
  }

  /** For text within the BMP, typing it and pasting it give the same value. */
  lemma TypingBmpMatchesCap(keys: string)
    requires forall i :: 0 <= i < |keys| ==> InBmp(keys[i])
    ensures TypeKeys("", keys) == CapInput(keys)
  {
    TypeKeysBmp("", keys);
    assert "" + keys == keys;
    assert TypeKeys("", keys) == if |keys| <= MaxLength then keys else keys[..MaxLength];
    CapInputBmp(keys);
  }

  /**
   With seven code units in the field a character outside the BMP is refused
   but one more BMP character still fits.
   */
  lemma RefuseThenAccept(a: string, wide: char, narrow: char)
    requires Utf16Length(a) == MaxLength - 1
    requires !InBmp(wide) && InBmp(narrow)
    ensures TypeKeys(a, [wide, narrow]) == a + [narrow]
  {
    assert [wide, narrow] == [wide] + [narrow];
    FirstKey(a, wide, [narrow]);
    assert [narrow] == [narrow] + [];
    FirstKey(a, narrow, []);
  }

  /** Typing seven BMP characters, then a wide one, then a narrow one drops the wide one. */
  lemma TypingSkipsOverflowing(a: string, wide: char, narrow: char)
    requires |a| == MaxLength - 1 && forall i :: 0 <= i < |a| ==> InBmp(a[i])
    requires !InBmp(wide) && InBmp(narrow)
    ensures TypeKeys("", a + [wide, narrow]) == a + [narrow]
  {
    TypeKeysBmp("", a);
    assert "" + a == a;
    TypeKeysAppend("", a, [wide, narrow]);
    BmpUnits(a, |a|);
    RefuseThenAccept(a, wide, narrow);
  }

  /** Typing "1234567😀8" key by key leaves "12345678". */
  lemma TypingSkipsOverflowingEmoji()
    ensures TypeKeys("", "1234567\U{1F600}8") == "12345678"
  {
    TypingSkipsOverflowing("1234567", '\U{1F600}', '8');
    assert "1234567" + ['\U{1F600}', '8'] == "1234567\U{1F600}8";
    assert "1234567" + ['8'] == "12345678";
  }

  /** Typing a key and then the rest: the key is appended when it fits. */
  lemma FirstKey(v: string, c: char, rest: string)
    requires Utf16Length(v) <= MaxLength
    ensures Utf16Length(v + [c]) == Utf16Length(v) + CodeUnits(c) &&
      (Utf16Length(v) + CodeUnits(c) <= MaxLength ==> TypeKeys(v, [c] + rest) == TypeKeys(v + [c], rest))
    ensures Utf16Length(v) + CodeUnits(c) > MaxLength ==> TypeKeys(v, [c] + rest) == TypeKeys(v, rest)
  {
    Utf16Append(v, c);
    assert ([c] + rest)[0] == c && ([c] + rest)[1..] == rest;
  }

  /** Pasting "1234567😀8" stops before the emoji: the field holds "1234567". */
  lemma PasteStopsAtOverflowingEmoji()
    ensures CapInput("1234567\U{1F600}8") == "1234567"
  {
    var keys := "1234567\U{1F600}8";
    assert forall i :: 0 <= i < 7 ==> InBmp(keys[i]);
    BmpUnits(keys, 7);
    PrefixUnitsOfPrefix(keys, 7);
    PrefixUnitsOfPrefix(keys, 8);
    CapInputUnique(keys, 7);
    assert keys[..7] == "1234567";
  }

  /** Two emoji are four code units: the button is enabled and the code submitted. */
  lemma TwoEmojiSubmitted()
    ensures Submission("\U{1F600}\U{1F600}") == Some("\U{1F600}\U{1F600}")
  {
    var c := "\U{1F600}\U{1F600}";
    assert Utf16Length(c) == 4;
    assert !IsWhiteSpace(c[0]);
    ToUpperKeepsUpper(c);
  }

  /** Outside the BMP the cap keeps the first four characters of longer input. */
  lemma CapInputAstral(typed: string)
    requires forall i :: 0 <= i < |typed| ==> !InBmp(typed[i])
    ensures CapInput(typed) == if |typed| <= MaxLength / 2 then typed else typed[..MaxLength / 2]
  {
    var v := CapInput(typed);
    AstralUnits(typed, |typed|);
    AstralUnits(v, |v|);
    if |v| < |typed| {
      AstralUnits(typed[..|v| + 1], |v| + 1);
    }
  }

  /** Five emoji are ten code units: the field keeps the first four. */
  lemma FiveEmojiCut()
    ensures CapInput("\U{1F600}\U{1F600}\U{1F600}\U{1F600}\U{1F600}") == "\U{1F600}\U{1F600}\U{1F600}\U{1F600}"
  {
    var typed := "\U{1F600}\U{1F600}\U{1F600}\U{1F600}\U{1F600}";
    CapInputAstral(typed);
    assert typed[..4] == "\U{1F600}\U{1F600}\U{1F600}\U{1F600}";
  }

  /** The demo code fits the field, enables the button and is submitted unchanged. */
  lemma DemoCodeAccepted()
    ensures CapInput(DemoCode) == DemoCode
    ensures SubmitEnabled(DemoCode)
    ensures Submission(DemoCode) == Some(DemoCode)
  {
    assert !IsWhiteSpace(DemoCode[0]);
    CapInputBmp(DemoCode);
    ToUpperKeepsUpper(DemoCode);
  }
}
