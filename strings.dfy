/**
 * The string operations the scripts apply to user text: `str.lower()`,
 * `str.replace(' ', '_')`, their composition (the directory "slug" used by
 * test/test_gdino_prompts.py and test/save_data.py) and `str.endswith`.
 */
module Strings {

  /** `str.lower()` on one character; only ASCII letters are modelled. */
  function LowerChar(c: char): char
  {
    if 'A' <= c <= 'Z' then (c as int + 32) as char else c
  }

  /** `str.lower()`, character by character. */
  function Lower(s: string): string
  {
    if s == [] then [] else [LowerChar(s[0])] + Lower(s[1..])
  }

  /** `str.replace(from, to)` for single characters. */
  function Replace(s: string, from: char, to: char): string
  {
    if s == [] then [] else [if s[0] == from then to else s[0]] + Replace(s[1..], from, to)
  }

  /** `text.lower().replace(' ', '_')`: the name a prompt or task gets on disk. */
  function Slug(s: string): string
  {
    Replace(Lower(s), ' ', '_')
  }

  /** What the slug does to one character of its input. */
  function SlugChar(c: char): char
  {
    if c == ' ' then '_' else LowerChar(c)
  }

  /** `s.endswith(suffix)`. */
  predicate HasSuffix(s: string, suffix: string)
  {
    |suffix| <= |s| && s[|s| - |suffix|..] == suffix
  }

  lemma {:induction false} LowerAt(s: string, i: nat)
    ensures |Lower(s)| == |s|
    ensures i < |s| ==> Lower(s)[i] == LowerChar(s[i])
  {
    if s != [] {
      LowerAt(s[1..], if i > 0 then i - 1 else 0);
    }
  }

  lemma {:induction false} ReplaceAt(s: string, from: char, to: char, i: nat)
    ensures |Replace(s, from, to)| == |s|
    ensures i < |s| ==> Replace(s, from, to)[i] == if s[i] == from then to else s[i]
  {
    if s != [] {
      ReplaceAt(s[1..], from, to, if i > 0 then i - 1 else 0);
    }
  }

  /**
   * The slug keeps the length of an ASCII prompt and changes a character only
   * by lower-casing an upper-case letter or turning a space into '_'.
   */
  lemma SlugAt(s: string, i: nat)
    requires i < |s|
    ensures |Slug(s)| == |s|
    ensures Slug(s)[i] == SlugChar(s[i])
    ensures Slug(s)[i] != s[i] ==> (s[i] == ' ' && Slug(s)[i] == '_') || ('A' <= s[i] <= 'Z' && Slug(s)[i] == s[i] + ('a' - 'A'))
  {
    LowerAt(s, i);
    ReplaceAt(Lower(s), ' ', '_', i);
  }

  lemma SlugLength(s: string)
    ensures |Slug(s)| == |s|
  {
    LowerAt(s, 0);
    ReplaceAt(Lower(s), ' ', '_', 0);
  }

  /** A slug never contains a space. */
  lemma SlugHasNoSpace(s: string)
    ensures ' ' !in Slug(s)
  {
    SlugLength(s);
    forall i | 0 <= i < |s|
      ensures Slug(s)[i] != ' '
    {
      SlugAt(s, i);
    }
  }

  /** Slugging a slug changes nothing. */
  lemma SlugIdempotent(s: string)
    ensures Slug(Slug(s)) == Slug(s)
  {
    SlugLength(s);
    SlugLength(Slug(s));
    forall i | 0 <= i < |s|
      ensures Slug(Slug(s))[i] == Slug(s)[i]
    {
      SlugAt(s, i);
      SlugAt(Slug(s), i);
    }
  }

  /** Different prompts share one output directory: the slug is not injective. */
  lemma SlugNotInjective()
    ensures Slug("A B") == Slug("a b") == Slug("a_b") == "a_b"
  {
    SlugLength("A B");
    SlugLength("a b");
    SlugLength("a_b");
    SlugAt("A B", 0); SlugAt("A B", 1); SlugAt("A B", 2);
    SlugAt("a b", 0); SlugAt("a b", 1); SlugAt("a b", 2);
    SlugAt("a_b", 0); SlugAt("a_b", 1); SlugAt("a_b", 2);
  }

  /** Lower-casing twice is lower-casing once. */
  lemma LowerIdempotent(s: string)
    ensures Lower(Lower(s)) == Lower(s)
  {
    LowerAt(s, 0);
    LowerAt(Lower(s), 0);
    forall i | 0 <= i < |s|
      ensures Lower(Lower(s))[i] == Lower(s)[i]
    {
      LowerAt(s, i);
      LowerAt(Lower(s), i);
    }
  }
}
