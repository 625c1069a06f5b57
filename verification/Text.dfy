/** The few string operations the detectors and the router use, on ASCII letters. */
module Text {

  function LowerChar(c: char): char {
    if 'A' <= c <= 'Z' then c - 'A' + 'a' else c
  }

  function UpperChar(c: char): char {
    if 'a' <= c <= 'z' then c - 'a' + 'A' else c
  }

  /** `c` is `w` with every ASCII capital replaced by its small letter. */
  ghost predicate Spells(w: string, c: string) {
    && |c| == |w|
    && forall i :: 0 <= i < |w| ==> c[i] as int == if 65 <= w[i] as int <= 90 then w[i] as int + 32 else w[i] as int
  }

  /** The word of a message that names the command `c`: the command in any case, perhaps behind one slash. */
  ghost predicate Names(word: string, c: string) {
    if |word| > 0 && word[0] as int == 47 then Spells(word[1..], c) else Spells(word, c)
  }

  function Lower(s: string): (r: string)
    ensures Spells(s, r)
  {
    seq(|s|, i requires 0 <= i < |s| => LowerChar(s[i]))
  }

  function Upper(s: string): (r: string)
    ensures |r| == |s|
    ensures forall i :: 0 <= i < |s| ==>
              r[i] as int == if 97 <= s[i] as int <= 122 then s[i] as int - 32 else s[i] as int
  {
    seq(|s|, i requires 0 <= i < |s| => UpperChar(s[i]))
  }

  lemma UpperTwice(s: string)
    ensures Upper(Upper(s)) == Upper(s)
  {
  }

  /** Upper-cased strings stay different when lower-cased. */
  lemma LowerOfUpper(s: string, t: string)
    requires Lower(Upper(s)) == Lower(Upper(t))
    ensures Upper(s) == Upper(t)
  {
    forall i | 0 <= i < |s| ensures Upper(s)[i] == Upper(t)[i] {
      assert Lower(Upper(s))[i] == Lower(Upper(t))[i];
    }
  }

  function WithoutSlash(s: string): string {
    if s != "" && s[0] == '/' then s[1..] else s
  }

  /** A word names exactly one command, the one the router looks up. */
  lemma NamesIsLookup(word: string, c: string)
    ensures Names(word, c) <==> c == WithoutSlash(Lower(word))
  {
    var low := Lower(word);
    if word != "" && word[0] == '/' {
      assert low[0] == '/';
      SpellsOnce(word[1..], low[1..], c);
    } else {
      SpellsOnce(word, low, c);
    }
  }

  lemma SpellsOnce(w: string, c: string, d: string)
    requires Spells(w, c)
    ensures Spells(w, d) <==> c == d
  {
    if Spells(w, d) {
      forall i | 0 <= i < |w| ensures c[i] == d[i] {
        assert c[i] as int == d[i] as int;
      }
    }
  }

  /** With a slash or without, a word that does not begin with one names the same command. */
  lemma SlashIsOptional(w: string, c: string)
    requires w == "" || w[0] != '/'
    ensures Names(w, c) <==> Spells(w, c)
    ensures Names("/" + w, c) <==> Spells(w, c)
  {
    assert ("/" + w)[1..] == w;
  }
}
