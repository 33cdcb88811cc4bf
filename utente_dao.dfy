/** The in-memory user store: a list of users and an id counter. Emails are unique among
    the stored users, ignoring case. The store has no delete operation. */
module UtenteStore {
  import opened Wrappers
  import opened Text
  import opened Sequences
  import opened Entities

  /** Index of the first user whose id is `id`. */
  function IndexOfId(s: seq<Utente>, id: int): (r: Option<nat>)
    ensures r.Some? ==> r.value < |s| && s[r.value].id == Some(id)
    ensures r.Some? ==> forall j :: 0 <= j < r.value ==> s[j].id != Some(id)
    ensures r.None? ==> forall j :: 0 <= j < |s| ==> s[j].id != Some(id)
  {
    if s == [] then None
    else if s[0].id == Some(id) then Some(0)
    else match IndexOfId(s[1..], id)
      case None => None
      case Some(k) => Some(k + 1)
  }

  /** Index of the first user whose email equals `email` ignoring case. */
  function IndexOfEmail(s: seq<Utente>, email: string): (r: Option<nat>)
    ensures r.Some? ==> r.value < |s| && EqualsIgnoreCase(email, s[r.value].email)
    ensures r.Some? ==> forall j :: 0 <= j < r.value ==> !EqualsIgnoreCase(email, s[j].email)
    ensures r.None? ==> forall j :: 0 <= j < |s| ==> !EqualsIgnoreCase(email, s[j].email)
  {
    if s == [] then None
    else if EqualsIgnoreCase(email, s[0].email) then Some(0)
    else match IndexOfEmail(s[1..], email)
      case None => None
      case Some(k) => Some(k + 1)
  }

  /** `removeIf` on the id: every user with that id goes, the others keep their order. */
  function WithoutId(s: seq<Utente>, id: int): (r: seq<Utente>)
    ensures forall x :: x in r <==> x in s && x.id != Some(id)
    ensures IsSubsequence(r, s)
  {
    if s == [] then []
    else if s[0].id == Some(id) then WithoutId(s[1..], id)
    else
      var rest := WithoutId(s[1..], id);
      assert ([s[0]] + rest)[1..] == rest;
      [s[0]] + rest
  }

  /** Every user of `s` has an id in 1..n. */
  ghost predicate IdsInRange(s: seq<Utente>, n: nat)
  {
    forall k :: 0 <= k < |s| ==> s[k].id.Some? && 1 <= s[k].id.value <= n
  }

  /** Ids of `s` are pairwise distinct. */
  ghost predicate DistinctIds(s: seq<Utente>)
  {
    forall i, j :: 0 <= i < j < |s| ==> s[i].id != s[j].id
  }

  /** Emails of `s` are pairwise distinct after case folding. */
  ghost predicate DistinctEmails(s: seq<Utente>)
  {
    forall i, j :: 0 <= i < j < |s| ==> Fold(s[i].email) != Fold(s[j].email)
  }

  /** The state of a store: the list of users and the last id handed out. */
  datatype Tabella = Tabella(utenti: seq<Utente>, contatoreId: nat) {

    /** What every reachable store satisfies: each user has an id in 1..contatoreId, ids are
        pairwise distinct, and emails are pairwise distinct after case folding. */
    ghost predicate Valid() {
      IdsInRange(utenti, contatoreId) && DistinctIds(utenti) && DistinctEmails(utenti)
    }

    /** `trovaPerEmail`: the first user whose email equals `email` ignoring case; a null
        email finds nothing. */
    function TrovaPerEmail(email: Option<string>): (r: Option<Utente>)
      ensures r.None? <==> email.None? ||
                           forall k :: 0 <= k < |utenti| ==> !EqualsIgnoreCase(email.value, utenti[k].email)
      ensures r.Some? ==> EqualsIgnoreCase(email.value, r.value.email)
      ensures r.Some? ==> exists k :: 0 <= k < |utenti| && utenti[k] == r.value &&
                                      forall j :: 0 <= j < k ==> !EqualsIgnoreCase(email.value, utenti[j].email)
    {
      if email.None? then None
      else match IndexOfEmail(utenti, email.value)
        case None => None
        case Some(k) => Some(utenti[k])
    }

    /** `trovaPerId`: the first user with that id; a null id finds nothing. */
    function TrovaPerId(id: Option<int>): (r: Option<Utente>)
      ensures r.None? <==> id.None? || forall k :: 0 <= k < |utenti| ==> utenti[k].id != id
      ensures r.Some? ==> r.value.id == id
      ensures r.Some? ==> exists k :: 0 <= k < |utenti| && utenti[k] == r.value &&
                                      forall j :: 0 <= j < k ==> utenti[j].id != id
    {
      if id.None? then None
      else match IndexOfId(utenti, id.value)
        case None => None
        case Some(k) => Some(utenti[k])
    }

    /** The duplicate search of an update: some user other than `id` has this email,
        ignoring case. */
    predicate EmailUsataDaAltro(email: string, id: Option<int>)
    {
      exists k | 0 <= k < |utenti| :: EqualsIgnoreCase(email, utenti[k].email) && utenti[k].id != id
    }

    /** `salva`: a user without id is inserted under the next id, unless the email is taken
        (checked before the counter moves); a user with an id replaces the stored one
        (remove, then append), unless the id is unknown or the email changes to one that
        another user has. */
    function Salva(u: Option<Utente>): (out: Step<Result<Utente>, Tabella>)
      ensures u.None? ==> out.result == Err(InvalidArgument)
      ensures u.Some? && out.result.Err? ==> out.result.error == DataAccess
      ensures out.result.Err? ==> out.state == this
      ensures u.Some? && u.value.id.None? ==>
                (out.result.Err? <==> TrovaPerEmail(Some(u.value.email)).Some?)
      ensures u.Some? && u.value.id.None? && out.result.Ok? ==>
                out.result.value == u.value.(id := Some(contatoreId + 1)) &&
                out.state == Tabella(utenti + [out.result.value], contatoreId + 1)
      ensures u.Some? && u.value.id.Some? && TrovaPerId(u.value.id).None? ==> out.result.Err?
      ensures u.Some? && u.value.id.Some? && out.result.Ok? ==>
                out.result.value == u.value && out.state.contatoreId == contatoreId &&
                out.state.utenti == WithoutId(utenti, u.value.id.value) + [u.value]
    {
      if u.None? then Step(Err(InvalidArgument), this)
      else
        var utente := u.value;
        if utente.id.None? then
          if TrovaPerEmail(Some(utente.email)).Some? then Step(Err(DataAccess), this)
          else
            var nuovo := utente.(id := Some(contatoreId + 1));
            Step(Ok(nuovo), Tabella(utenti + [nuovo], contatoreId + 1))
        else
          match TrovaPerId(utente.id)
          case None => Step(Err(DataAccess), this)
          case Some(esistente) =>
            if !EqualsIgnoreCase(utente.email, esistente.email) && EmailUsataDaAltro(utente.email, utente.id) then
              Step(Err(DataAccess), this)
            else
              Step(Ok(utente), Tabella(WithoutId(utenti, utente.id.value) + [utente], contatoreId))
    }
  }

  lemma {:induction false} WithoutAbsentId(s: seq<Utente>, id: int)
    requires forall j :: 0 <= j < |s| ==> s[j].id != Some(id)
    ensures WithoutId(s, id) == s
  {
    if s != [] {
      WithoutAbsentId(s[1..], id);
      assert s == [s[0]] + s[1..];
    }
  }

  /** With distinct ids, `removeIf` on an id removes exactly the one user holding it. */
  lemma {:induction false} WithoutUniqueId(s: seq<Utente>, id: int, k: nat)
    requires DistinctIds(s) && k < |s| && s[k].id == Some(id)
    ensures WithoutId(s, id) == RemoveAt(s, k)
  {
    if k == 0 {
      WithoutAbsentId(s[1..], id);
    } else {
      assert s[0].id != s[k].id;
      WithoutUniqueId(s[1..], id, k - 1);
      assert RemoveAt(s, k) == [s[0]] + RemoveAt(s[1..], k - 1);
    }
  }

  /** Removing one user keeps the invariant. */
  lemma RemoveAtKeepsValid(s: seq<Utente>, n: nat, k: nat)
    requires k < |s| && IdsInRange(s, n) && DistinctIds(s) && DistinctEmails(s)
    ensures var r := RemoveAt(s, k); IdsInRange(r, n) && DistinctIds(r) && DistinctEmails(r)
  {
    var r := RemoveAt(s, k);
    forall i, j | 0 <= i < j < |r|
      ensures r[i].id != r[j].id && Fold(r[i].email) != Fold(r[j].email)
    {
      var i0 := if i < k then i else i + 1;
      var j0 := if j < k then j else j + 1;
      assert r[i] == s[i0] && r[j] == s[j0] && i0 < j0;
    }
  }

  /** Appending a user whose id and folded email are new keeps the invariant. */
  lemma AppendKeepsValid(s: seq<Utente>, n: nat, x: Utente)
    requires IdsInRange(s, n) && DistinctIds(s) && DistinctEmails(s)
    requires x.id.Some? && 1 <= x.id.value <= n
    requires forall k :: 0 <= k < |s| ==> s[k].id != x.id && Fold(s[k].email) != Fold(x.email)
    ensures var r := s + [x]; IdsInRange(r, n) && DistinctIds(r) && DistinctEmails(r)
  {
  }

  /** The email test of an update, on a valid store and the user at index `k` being updated:
      it rejects the new email exactly when a user other than the one at `k` has it. */
  lemma UpdateEmailCheck(t: Tabella, k: nat, u: Utente)
    requires t.Valid() && k < |t.utenti| && t.utenti[k].id == u.id
    ensures (!EqualsIgnoreCase(u.email, t.utenti[k].email) && t.EmailUsataDaAltro(u.email, u.id)) <==>
            exists j :: 0 <= j < |t.utenti| && j != k && EqualsIgnoreCase(t.utenti[j].email, u.email)
  {
    var s := t.utenti;
    if exists j :: 0 <= j < |s| && j != k && EqualsIgnoreCase(s[j].email, u.email) {
      var j :| 0 <= j < |s| && j != k && EqualsIgnoreCase(s[j].email, u.email);
      assert Fold(s[j].email) != Fold(s[k].email) && s[j].id != s[k].id by {
        if j < k {} else {}
      }
    }
  }

  /** On a valid store, the id a successful insert hands out is larger than every stored id. */
  lemma InsertIdAboveStored(t: Tabella, u: Option<Utente>)
    requires t.Valid() && u.Some? && u.value.id.None? && t.Salva(u).result.Ok?
    ensures forall k :: 0 <= k < |t.utenti| ==>
              t.utenti[k].id.value < t.Salva(u).result.value.id.value
  {
  }

  /** Every `salva` keeps the store invariant: in particular no two users ever share an
      email ignoring case. */
  lemma SalvaPreservesValid(t: Tabella, u: Option<Utente>)
    requires t.Valid()
    ensures t.Salva(u).state.Valid()
  {
    var out := t.Salva(u);
    if u.Some? && out.result.Ok? {
      var s := t.utenti;
      var utente := u.value;
      if utente.id.None? {
        AppendKeepsValid(s, t.contatoreId + 1, out.result.value);
      } else {
        var k := IndexOfId(s, utente.id.value).value;
        WithoutUniqueId(s, utente.id.value, k);
        UpdateEmailCheck(t, k, utente);
        RemoveAtKeepsValid(s, t.contatoreId, k);
        var r := RemoveAt(s, k);
        forall i | 0 <= i < |r| ensures r[i].id != utente.id && Fold(r[i].email) != Fold(utente.email) {
          var i0 := if i < k then i else i + 1;
          assert r[i] == s[i0];
          assert s[i0].id != s[k].id by { if i0 < k {} else {} }
        }
        AppendKeepsValid(r, t.contatoreId, utente);
      }
    }
  }

  /** Updating a known id fails exactly when another user has the new email ignoring case;
      keeping the own email, in any case, never fails. */
  lemma SalvaUpdateConflict(t: Tabella, u: Utente)
    requires t.Valid() && u.id.Some? && t.TrovaPerId(u.id).Some?
    ensures t.Salva(Some(u)).result.Err? <==>
            exists j :: 0 <= j < |t.utenti| && t.utenti[j].id != u.id &&
                        EqualsIgnoreCase(t.utenti[j].email, u.email)
    ensures EqualsIgnoreCase(u.email, t.TrovaPerId(u.id).value.email) ==> t.Salva(Some(u)).result.Ok?
  {
    var s := t.utenti;
    var k := IndexOfId(s, u.id.value).value;
    UpdateEmailCheck(t, k, u);
    forall j | 0 <= j < |s| ensures (j != k) == (s[j].id != u.id) {
      if j != k { assert s[j].id != s[k].id by { if j < k {} else {} } }
    }
  }

  /** A successful update on a valid store replaces the stored user: the count of users is
      unchanged, the new version is last and alone with its id, and a lookup by the id
      returns it (a changed role is visible). */
  lemma SalvaUpdateReplaces(t: Tabella, u: Utente)
    requires t.Valid() && u.id.Some? && t.Salva(Some(u)).result.Ok?
    ensures var s' := t.Salva(Some(u)).state.utenti;
            |s'| == |t.utenti| && s'[|s'| - 1] == u &&
            (forall j :: 0 <= j < |s'| - 1 ==> s'[j].id != u.id) &&
            t.Salva(Some(u)).state.TrovaPerId(u.id) == Some(u)
  {
    var k := IndexOfId(t.utenti, u.id.value).value;
    WithoutUniqueId(t.utenti, u.id.value, k);
    var s' := t.Salva(Some(u)).state.utenti;
    forall j | 0 <= j < |s'| - 1 ensures s'[j].id != u.id {
      assert s'[j] in WithoutId(t.utenti, u.id.value);
    }
  }

  /** `InMemoryUtenteDao`: the store object, whose list and counter `salva` updates. */
  class InMemoryUtenteDao {
    var archivioUtenti: seq<Utente>
    var contatoreId: nat

    function Stato(): Tabella
      reads this
    {
      Tabella(archivioUtenti, contatoreId)
    }

    ghost predicate Valid()
      reads this
    {
      Stato().Valid()
    }

    constructor ()
      ensures Valid() && Stato() == Tabella([], 0)
    {
      archivioUtenti := [];
      contatoreId := 0;
    }

    method Salva(u: Option<Utente>) returns (r: Result<Utente>)
      requires Valid()
      modifies this
      ensures Valid()
      ensures Step(r, Stato()) == old(Stato()).Salva(u)
    {
      SalvaPreservesValid(Stato(), u);
      if u.None? {
        return Err(InvalidArgument);
      }
      var utente := u.value;
      if utente.id.None? {
        if Stato().TrovaPerEmail(Some(utente.email)).Some? {
          return Err(DataAccess);
        }
        contatoreId := contatoreId + 1;
        utente := utente.(id := Some(contatoreId));
        archivioUtenti := archivioUtenti + [utente];
      } else {
        var optUtenteEsistente := Stato().TrovaPerId(utente.id);
        if optUtenteEsistente.None? {
          return Err(DataAccess);
        }
        var utenteEsistente := optUtenteEsistente.value;
        if !EqualsIgnoreCase(utente.email, utenteEsistente.email) {
          if Stato().EmailUsataDaAltro(utente.email, utente.id) {
            return Err(DataAccess);
          }
        }
        archivioUtenti := WithoutId(archivioUtenti, utente.id.value);
        archivioUtenti := archivioUtenti + [utente];
      }
      r := Ok(utente);
    }
  }
}
