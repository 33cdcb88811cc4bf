/** The password encoder: the "hash" is the reversed password between a fixed prefix and a
    fixed suffix, and verification compares a stored hash with the hash of a candidate. A
    character here is a Unicode scalar value, so reversing a `string` reverses code points,
    as `StringBuilder.reverse` does with surrogate pairs. */
module Codificatore {
  import opened Wrappers

  const Prefisso: string := "hashed_"
  const Suffisso: string := "_sale"

  /** The characters of `s` in the opposite order. */
  function Reverse(s: string): (r: string)
    ensures |r| == |s|
    ensures forall i :: 0 <= i < |s| ==> r[i] == s[|s| - 1 - i]
  {
    seq(|s|, i requires 0 <= i < |s| => s[|s| - 1 - i])
  }

  /** Reversing twice gives the string back. */
  lemma ReverseReverse(s: string)
    ensures Reverse(Reverse(s)) == s
  {
  }

  /** `calcolaHashPassword`: prefix, then the password reversed, then suffix. */
  function CalcolaHashPassword(passwordInChiaro: string): (h: string)
    ensures |h| == |Prefisso| + |passwordInChiaro| + |Suffisso|
    ensures h[..|Prefisso|] == Prefisso && h[|h| - |Suffisso|..] == Suffisso
    ensures forall i :: |Prefisso| <= i < |Prefisso| + |passwordInChiaro| ==>
              h[i] == passwordInChiaro[|Prefisso| + |passwordInChiaro| - 1 - i]
  {
    var h := Prefisso + Reverse(passwordInChiaro) + Suffisso;
    assert h[..|Prefisso|] == Prefisso;
    assert h[|h| - |Suffisso|..] == Suffisso;
    h
  }

  /** The password a hash was made from, if the hash has the encoder's shape: an inverse of
      `CalcolaHashPassword`. */
  function EstraiPassword(h: string): (p: Option<string>)
    ensures p.Some? ==> |h| == |Prefisso| + |p.value| + |Suffisso|
  {
    if |h| >= |Prefisso| + |Suffisso| && h[..|Prefisso|] == Prefisso && h[|h| - |Suffisso|..] == Suffisso
    then Some(Reverse(h[|Prefisso|..|h| - |Suffisso|]))
    else None
  }

  /** Extracting from a computed hash gives the password back. */
  lemma EstraiCalcola(p: string)
    ensures EstraiPassword(CalcolaHashPassword(p)) == Some(p)
  {
    var h := CalcolaHashPassword(p);
    assert h[|Prefisso|..|h| - |Suffisso|] == Reverse(p);
    ReverseReverse(p);
  }

  /** Different passwords never share a hash. */
  lemma HashInjective(p: string, q: string)
    requires CalcolaHashPassword(p) == CalcolaHashPassword(q)
    ensures p == q
  {
    EstraiCalcola(p);
    EstraiCalcola(q);
  }

  /** `verificaPassword`: false when either argument is null, otherwise whether the hash is
      exactly the hash of the password. */
  function VerificaPassword(passwordInChiaro: Option<string>, hashPassword: Option<string>): (b: bool)
    ensures passwordInChiaro.None? || hashPassword.None? ==> !b
    ensures b ==> EstraiPassword(hashPassword.value) == passwordInChiaro
  {
    if passwordInChiaro.None? || hashPassword.None? then false
    else
      var ok := hashPassword.value == CalcolaHashPassword(passwordInChiaro.value);
      if ok then EstraiCalcola(passwordInChiaro.value); ok else ok
  }

  /** A candidate verifies against the hash of a password exactly when it is that password:
      the check is case-sensitive and rejects any other string. */
  lemma VerificaEsatta(p: string, q: string)
    ensures VerificaPassword(Some(q), Some(CalcolaHashPassword(p))) <==> q == p
  {
    if q != p && VerificaPassword(Some(q), Some(CalcolaHashPassword(p))) {
      HashInjective(q, p);
    }
  }

  /** A stored hash verifies some password exactly when it has the encoder's shape, and then
      only the password extracted from it. */
  lemma VerificaSoloHashBenFormati(p: string, h: string)
    ensures VerificaPassword(Some(p), Some(h)) <==> EstraiPassword(h) == Some(p)
  {
    if EstraiPassword(h) == Some(p) {
      var m := h[|Prefisso|..|h| - |Suffisso|];
      ReverseReverse(m);
      assert h == Prefisso + m + Suffisso;
      assert Reverse(p) == m;
    }
  }

  /** A computed hash with anything appended no longer verifies the password it was
      made from. */
  lemma HashConCodaNonVerifica(p: string, coda: string)
    requires coda != []
    ensures !VerificaPassword(Some(p), Some(CalcolaHashPassword(p) + coda))
  {
  }

  /** The reversal the documented example relies on. */
  lemma ReverseEsempio()
    ensures Reverse("password123") == "321drowssap"
  {
    var r := Reverse("password123");
    assert r[0] == '3' && r[1] == '2' && r[2] == '1' && r[3] == 'd' && r[4] == 'r' && r[5] == 'o';
    assert r[6] == 'w' && r[7] == 's' && r[8] == 's' && r[9] == 'a' && r[10] == 'p';
  }

  /** The documented example: "password123" hashes to "hashed_321drowssap_sale". */
  lemma EsempioPassword123()
    ensures CalcolaHashPassword("password123") == "hashed_321drowssap_sale"
  {
    ReverseEsempio();
  }

  /** The empty password hashes to the bare prefix and suffix. */
  lemma EsempioVuota()
    ensures CalcolaHashPassword("") == "hashed__sale"
  {
  }
}
