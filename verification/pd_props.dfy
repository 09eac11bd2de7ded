/**
 Properties of the DataFrame preparation steps of am4894bq/pd.py: the sanitiser works
 character by character, cleaning and stringifying are idempotent, and a stringified
 frame maps to an all-STRING schema.
 */
module PdProps {
  import opened Frame
  import opened BqSchema
  import opened Pd

  /** The substitution is applied to each character independently: sanitising a
      concatenation is concatenating the sanitised parts. */
  lemma {:induction false} SanitizeConcat(a: string, b: string, badChars: string, charDefault: string)
    ensures Sanitize(a + b, badChars, charDefault)
            == Sanitize(a, badChars, charDefault) + Sanitize(b, badChars, charDefault)
    decreases |b|
  {
    if b == [] {
      assert a + b == a;
    } else {
      var front, c := b[..|b| - 1], b[|b| - 1];
      assert b == front + [c];
      assert a + b == (a + front) + [c];
      assert (a + b)[..|a + b| - 1] == a + front;
      SanitizeConcat(a, front, badChars, charDefault);
    }
  }

  /** A single character: a bad one becomes the whole replacement string, whatever its
      length, and any other character stays. With `SanitizeConcat` this fixes the
      sanitiser on every input. */
  lemma SanitizeChar(c: char, badChars: string, charDefault: string)
    ensures Sanitize([c], badChars, charDefault) == if c in badChars then charDefault else [c]
  {
    assert [c][..0] == [];
  }

  /** A replacement free of bad characters makes the sanitiser idempotent. */
  lemma SanitizeIdempotent(s: string, badChars: string, charDefault: string)
    requires forall c | c in charDefault :: c !in badChars
    ensures var r := Sanitize(s, badChars, charDefault);
            Sanitize(r, badChars, charDefault) == r
  {
  }

  /** With a replacement free of bad characters, cleaning an already cleaned frame
      changes nothing. */
  lemma CleanColnamesIdempotent(df: Frame, charDefault: string, badChars: string)
    requires PlainClass(badChars) && PlainReplacement(charDefault)
    requires forall c | c in charDefault :: c !in badChars
    ensures var once := CleanColnames(df, charDefault, badChars);
            CleanColnames(once, charDefault, badChars) == once
  {
    var once := CleanColnames(df, charDefault, badChars);
    var twice := CleanColnames(once, charDefault, badChars);
    forall i | 0 <= i < |once| ensures twice[i] == once[i] {
      SanitizeIdempotent(Renamed(df[i].name, charDefault), badChars, charDefault);
    }
  }

  /** The defaults `df_to_gbq` uses are a plain class and a literal replacement that is
      itself clean, so cleaning with them is idempotent and leaves no bad character. */
  lemma DefaultsClean(df: Frame)
    ensures PlainClass(BadChars) && PlainReplacement(CharDefault)
    ensures var once := CleanColnames(df, CharDefault, BadChars);
            && CleanColnames(once, CharDefault, BadChars) == once
            && forall i | 0 <= i < |once| :: forall c | c in once[i].name.text :: c !in BadChars
  {
    assert forall c | c in CharDefault :: c !in BadChars;
    CleanColnamesIdempotent(df, CharDefault, BadChars);
  }

  /** A non-string label becomes the sanitised `char_default` followed by its sanitised
      rendering; a clean `char_default` survives as the prefix. */
  lemma NonStringPrefixed(df: Frame, charDefault: string, badChars: string, i: int)
    requires PlainClass(badChars) && PlainReplacement(charDefault)
    requires 0 <= i < |df| && df[i].name.Other?
    ensures var text := CleanColnames(df, charDefault, badChars)[i].name.text;
            && text == Sanitize(charDefault, badChars, charDefault)
                       + Sanitize(df[i].name.repr, badChars, charDefault)
            && ((forall c | c in charDefault :: c !in badChars) ==>
                  text == charDefault + Sanitize(df[i].name.repr, badChars, charDefault))
  {
    SanitizeConcat(charDefault, df[i].name.repr, badChars, charDefault);
  }

  /** Stringifying twice is stringifying once. */
  lemma ColsToStrIdempotent(df: Frame)
    ensures ColsToStr(ColsToStr(df)) == ColsToStr(df)
  {
  }

  /** A stringified frame maps to a schema of the same names, all of type STRING. */
  lemma StringifiedSchema(df: Frame)
    ensures var s := DfToBqSchema(ColsToStr(df));
            && Names(s) == Labels(df)
            && forall f | f in s :: f.kind == DefaultType
  {
    var s := DfToBqSchema(ColsToStr(df));
    forall f | f in s ensures f.kind == DefaultType {
      var i :| 0 <= i < |s| && s[i] == f;
    }
  }
}
