// `sanitize_filename`, shared in three variants by the chat export scripts:
// unsafe characters become '-', the text is cut to 100 characters and
// stripped of leading and trailing dots and spaces, and an empty result
// becomes "untitled".
module FileNames {
  import opened Common

  /** The characters `[<>:"/\\|?*]` replaces. */
  const Unsafe: set<char> := {'<', '>', ':', '"', '/', '\\', '|', '?', '*'}

  /** The characters `strip('. ')` removes. */
  const Strippable: set<char> := {'.', ' '}

  const MaxNameLength := 100

  /** `re.sub(r'[<>:"/\\|?*]', '-', text)`. */
  function ReplaceUnsafe(s: string): (r: string)
    ensures |r| == |s|
    ensures forall i :: 0 <= i < |s| ==> r[i] == if s[i] in Unsafe then '-' else s[i]
  {
    if s == [] then [] else [if s[0] in Unsafe then '-' else s[0]] + ReplaceUnsafe(s[1..])
  }

  /** `text[:100]`. */
  function Truncate(s: string): (r: string)
    ensures |r| <= MaxNameLength
    ensures r == s[..if |s| <= MaxNameLength then |s| else MaxNameLength]
  {
    if |s| <= MaxNameLength then s else s[..MaxNameLength]
  }

  /** `lstrip('. ')`: the longest suffix not starting with a dot or space. */
  function StripLeft(s: string): (r: string)
    ensures |r| <= |s| && r == s[|s| - |r|..]
    ensures forall k :: 0 <= k < |s| - |r| ==> s[k] in Strippable
    ensures r != [] ==> r[0] !in Strippable
  {
    if s != [] && s[0] in Strippable then StripLeft(s[1..]) else s
  }

  /** `rstrip('. ')`: the longest prefix not ending with a dot or space. */
  function StripRight(s: string): (r: string)
    ensures |r| <= |s| && r == s[..|r|]
    ensures forall k :: |r| <= k < |s| ==> s[k] in Strippable
    ensures r != [] ==> r[|r| - 1] !in Strippable
  {
    if s != [] && s[|s| - 1] in Strippable then StripRight(s[..|s| - 1]) else s
  }

  /** `strip('. ')`. */
  function Strip(s: string): string {
    StripRight(StripLeft(s))
  }

  /** What `sanitize_filename` does to a non-empty string. */
  function CleanName(s: string): string {
    var r := Strip(Truncate(ReplaceUnsafe(s)));
    if r == [] then "untitled" else r
  }

  /** `sanitize_filename` of the sync and remaining-chats scripts: a missing,
      null or empty value is "untitled". */
  function SanitizeField(text: Field): string {
    if text.Truthy() then CleanName(text.s) else "untitled"
  }

  predicate NoUnsafe(s: string) {
    forall i :: 0 <= i < |s| ==> s[i] !in Unsafe
  }

  /** A name `sanitize_filename` may return: non-empty, at most 100
      characters, free of the unsafe characters and not starting or ending
      with a dot or a space. */
  predicate SafeName(r: string) {
    r != [] && |r| <= MaxNameLength && NoUnsafe(r)
    && r[0] !in Strippable && r[|r| - 1] !in Strippable
  }

  lemma ReplaceUnsafeClean(s: string)
    ensures NoUnsafe(ReplaceUnsafe(s))
  {
    var r := ReplaceUnsafe(s);
    forall i | 0 <= i < |r|
      ensures r[i] !in Unsafe
    {
      assert r[i] == if s[i] in Unsafe then '-' else s[i];
    }
  }

  lemma SliceNoUnsafe(s: string, i: nat, j: nat)
    requires NoUnsafe(s) && i <= j <= |s|
    ensures NoUnsafe(s[i..j])
  {
    forall k | 0 <= k < j - i
      ensures s[i..j][k] !in Unsafe
    {
      assert s[i..j][k] == s[i + k];
    }
  }

  /** Every result of `sanitize_filename` is a safe name. */
  lemma CleanNameSafe(s: string)
    ensures SafeName(CleanName(s))
  {
    var u := ReplaceUnsafe(s);
    ReplaceUnsafeClean(s);
    var t := Truncate(u);
    SliceNoUnsafe(u, 0, |t|);
    StripSafe(t);
    UntitledSafe();
  }

  /** Stripping a short name free of unsafe characters leaves either
      nothing or a safe name. */
  lemma StripSafe(t: string)
    requires NoUnsafe(t) && |t| <= MaxNameLength
    ensures Strip(t) != [] ==> SafeName(Strip(t))
  {
    var l := StripLeft(t);
    SliceNoUnsafe(t, |t| - |l|, |t|);
    var r := StripRight(l);
    SliceNoUnsafe(l, 0, |r|);
    if r != [] {
      assert r[0] == l[0];
    }
  }

  lemma UntitledSafe()
    ensures SafeName("untitled")
  {
  }

  lemma SanitizeFieldSafe(text: Field)
    ensures SafeName(SanitizeField(text))
    ensures !text.Truthy() ==> SanitizeField(text) == "untitled"
  {
    if text.Truthy() {
      CleanNameSafe(text.s);
    }
  }

  /** A safe name passes through `sanitize_filename` unchanged. */
  lemma CleanNameKeepsSafe(r: string)
    requires SafeName(r)
    ensures CleanName(r) == r
  {
    assert ReplaceUnsafe(r) == r;
    assert Truncate(r) == r;
    assert StripLeft(r) == r;
    assert StripRight(r) == r;
  }

  /** The fallback name is itself a fixed point. */
  lemma CleanUntitled()
    ensures CleanName("untitled") == "untitled"
  {
    var u := "untitled";
    assert NoUnsafe(u) by {
      forall i | 0 <= i < |u| ensures u[i] !in Unsafe {
      }
    }
    CleanNameKeepsSafe(u);
  }

  /** `sanitize_filename` is idempotent. */
  lemma CleanNameIdempotent(s: string)
    ensures CleanName(CleanName(s)) == CleanName(s)
  {
    CleanNameSafe(s);
    CleanNameKeepsSafe(CleanName(s));
  }

  lemma SanitizeFieldIdempotent(text: Field)
    ensures SanitizeField(Str(SanitizeField(text))) == SanitizeField(text)
  {
    SanitizeFieldSafe(text);
    CleanNameKeepsSafe(SanitizeField(text));
  }
}
