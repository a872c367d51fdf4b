/**
 * Seller sign-in: the first seller whose email and password both equal the
 * input (plain string equality) becomes the current seller.
 */
module Login {
  import opened Wrappers
  import opened Seqs
  import opened Records
  import Registration

  predicate CredentialsMatch(s: Seller, email: string, password: string) {
    s.email == email && s.password == password
  }

  /** The sign-in handler. */
  function Login(db: RecordStore, email: string, password: string): (r: Result<RecordStore, Error>)
    ensures r.Success? <==> exists i :: 0 <= i < |db.sellers| && CredentialsMatch(db.sellers[i], email, password)
    ensures r.Failure? ==> r.error == InvalidCredentials
    ensures r.Success? ==>
      exists i :: && 0 <= i < |db.sellers|
                  && CredentialsMatch(db.sellers[i], email, password)
                  && (forall j :: 0 <= j < i ==> !CredentialsMatch(db.sellers[j], email, password))
                  && r.value.currentSeller == Some(db.sellers[i])
    ensures r.Success? ==> r.value == db.(currentSeller := r.value.currentSeller)
  {
    match FirstIndex(db.sellers, (s: Seller) => CredentialsMatch(s, email, password))
    case None => Failure(InvalidCredentials)
    case Some(i) => Success(db.(currentSeller := Some(db.sellers[i])))
  }

  /**
   * Right after a seller signs up, signing in with the same email and
   * password selects that very seller: emails are distinct, so no earlier
   * entry can match.
   */
  lemma LoginAfterRegister(db: RecordStore, form: Registration.SellerForm, id: string, createdAt: string)
    requires Registration.RegisterSeller(db, form, id, createdAt).Success?
    ensures var db' := Registration.RegisterSeller(db, form, id, createdAt).value;
      Login(db', form.email, form.password) == Success(db')
  {
    var db' := Registration.RegisterSeller(db, form, id, createdAt).value;
    var s := Registration.NewSeller(form, id, createdAt);
    var n := |db.sellers|;
    assert db'.sellers[n] == s;
    forall j | 0 <= j < n
      ensures !CredentialsMatch(db'.sellers[j], form.email, form.password)
    {
      assert db'.sellers[j] == db.sellers[j];
    }
  }
}
