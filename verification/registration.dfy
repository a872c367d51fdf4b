/**
 * The registration gate of the two sign-up pages: the store sign-up
 * (`pantry_stores`) and the seller sign-up (`pantry_sellers`). Both refuse
 * when the collection already holds 30 entries, then refuse an email that is
 * already registered, and otherwise append the new record and make it the
 * current session. Ids, timestamps and QR tokens are passed in.
 */
module Registration {
  import opened Wrappers
  import opened Records

  /** The capacity check comes first, the duplicate-email check second. */
  function Gate(count: nat, limit: nat, emailTaken: bool): (r: Option<Error>)
    ensures r == None <==> count < limit && !emailTaken
    ensures count >= limit ==> r == Some(CapacityExceeded)
    ensures count < limit && emailTaken ==> r == Some(DuplicateEmail)
  {
    if count >= limit then Some(CapacityExceeded)
    else if emailTaken then Some(DuplicateEmail)
    else None
  }

  // ---------------------------------------------------------------------------
  // Store sign-up
  // ---------------------------------------------------------------------------

  datatype StoreForm = StoreForm(
    storeName: string,
    ownerName: string,
    email: string,
    password: string,
    phone: string,
    gcashNumber: string,
    gcashName: string,
    description: string)

  /** The form fields a store record carries. */
  function StoreFormOf(s: Store): StoreForm {
    StoreForm(s.storeName, s.ownerName, s.email, s.password, s.phone, s.gcashNumber, s.gcashName, s.description)
  }

  predicate StoreEmailTaken(stores: seq<Store>, email: string) {
    exists i :: 0 <= i < |stores| && stores[i].email == email
  }

  predicate UniqueStoreEmails(stores: seq<Store>) {
    forall i, j :: 0 <= i < j < |stores| ==> stores[i].email != stores[j].email
  }

  /** A new store copies the form and starts with no products and no sales. */
  function NewStore(form: StoreForm, id: string, createdAt: string, qrCode: string): (s: Store)
    ensures StoreFormOf(s) == form
    ensures s.id == id && s.createdAt == createdAt && s.qrCode == qrCode
    ensures ProductsOf(s) == [] && s.products.Some?
    ensures TransactionsOf(s) == [] && s.transactions.Some?
  {
    Store(id, form.storeName, form.ownerName, form.email, form.password, form.phone,
          form.gcashNumber, form.gcashName, form.description, createdAt, qrCode, Some([]), Some([]))
  }

  /** The store sign-up handler. */
  function RegisterStore(db: RecordStore, form: StoreForm, id: string, createdAt: string, qrCode: string)
    : (r: Result<RecordStore, Error>)
    ensures r.Success? <==> |db.stores| < MaxStores && !StoreEmailTaken(db.stores, form.email)
    ensures |db.stores| >= MaxStores ==> r == Failure(CapacityExceeded)
    ensures |db.stores| < MaxStores && StoreEmailTaken(db.stores, form.email) ==> r == Failure(DuplicateEmail)
    ensures r.Success? ==>
      var s := NewStore(form, id, createdAt, qrCode);
      && r.value.stores == db.stores + [s]
      && r.value.currentStore == Some(s)
      && r.value == db.(stores := r.value.stores, currentStore := r.value.currentStore)
  {
    var taken := Seqs.FirstIndex(db.stores, (s: Store) => s.email == form.email).Some?;
    match Gate(|db.stores|, MaxStores, taken)
    case Some(e) => Failure(e)
    case None =>
      var s := NewStore(form, id, createdAt, qrCode);
      Success(db.(stores := db.stores + [s], currentStore := Some(s)))
  }

  /**
   * A successful sign-up keeps emails pairwise distinct and never takes the
   * collection past its capacity.
   */
  lemma RegisterStoreKeepsInvariant(db: RecordStore, form: StoreForm, id: string, createdAt: string, qrCode: string)
    requires UniqueStoreEmails(db.stores)
    requires RegisterStore(db, form, id, createdAt, qrCode).Success?
    ensures UniqueStoreEmails(RegisterStore(db, form, id, createdAt, qrCode).value.stores)
    ensures |RegisterStore(db, form, id, createdAt, qrCode).value.stores| <= MaxStores
  {
    var after := RegisterStore(db, form, id, createdAt, qrCode).value.stores;
    forall i, j | 0 <= i < j < |after|
      ensures after[i].email != after[j].email
    {
      if j == |db.stores| {
        assert after[i] == db.stores[i];
      }
    }
  }

  /** One sign-up attempt with its generated id, timestamp and QR token. */
  datatype StoreAttempt = StoreAttempt(form: StoreForm, id: string, createdAt: string, qrCode: string)

  /** Submits the attempts in order; a refused attempt leaves the records as they were. */
  function RegisterStores(db: RecordStore, attempts: seq<StoreAttempt>): RecordStore
    decreases |attempts|
  {
    if |attempts| == 0 then db
    else
      var a := attempts[0];
      var next := match RegisterStore(db, a.form, a.id, a.createdAt, a.qrCode)
        case Success(db') => db'
        case Failure(_) => db;
      RegisterStores(next, attempts[1..])
  }

  /**
   * However many sign-ups are submitted, starting within capacity with
   * distinct emails, the collection stays within capacity with distinct
   * emails; so once 30 stores exist every further attempt is refused.
   */
  lemma {:induction false} RegisterStoresBounded(db: RecordStore, attempts: seq<StoreAttempt>)
    requires |db.stores| <= MaxStores && UniqueStoreEmails(db.stores)
    ensures |RegisterStores(db, attempts).stores| <= MaxStores
    ensures UniqueStoreEmails(RegisterStores(db, attempts).stores)
    decreases |attempts|
  {
    if |attempts| > 0 {
      var a := attempts[0];
      var r := RegisterStore(db, a.form, a.id, a.createdAt, a.qrCode);
      if r.Success? {
        RegisterStoreKeepsInvariant(db, a.form, a.id, a.createdAt, a.qrCode);
        RegisterStoresBounded(r.value, attempts[1..]);
      } else {
        RegisterStoresBounded(db, attempts[1..]);
      }
    }
  }

  // ---------------------------------------------------------------------------
  // Seller sign-up
  // ---------------------------------------------------------------------------

  datatype SellerForm = SellerForm(
    name: string,
    email: string,
    password: string,
    businessName: string,
    phone: string,
    gcashNumber: string,
    description: string)

  /** The form fields a seller record carries. */
  function SellerFormOf(s: Seller): SellerForm {
    SellerForm(s.name, s.email, s.password, s.businessName, s.phone, s.gcashNumber, s.description)
  }

  predicate SellerEmailTaken(sellers: seq<Seller>, email: string) {
    exists i :: 0 <= i < |sellers| && sellers[i].email == email
  }

  predicate UniqueSellerEmails(sellers: seq<Seller>) {
    forall i, j :: 0 <= i < j < |sellers| ==> sellers[i].email != sellers[j].email
  }

  /** A new seller copies the form, is active, and has no sales and no rating. */
  function NewSeller(form: SellerForm, id: string, createdAt: string): (s: Seller)
    ensures SellerFormOf(s) == form
    ensures s.id == id && s.createdAt == createdAt
    ensures s.isActive && s.totalSales == 0 && s.rating == 0
  {
    Seller(id, form.name, form.email, form.password, form.businessName, form.phone,
           form.gcashNumber, form.description, createdAt, true, 0, 0)
  }

  /** The seller sign-up handler. */
  function RegisterSeller(db: RecordStore, form: SellerForm, id: string, createdAt: string)
    : (r: Result<RecordStore, Error>)
    ensures r.Success? <==> |db.sellers| < MaxSellers && !SellerEmailTaken(db.sellers, form.email)
    ensures |db.sellers| >= MaxSellers ==> r == Failure(CapacityExceeded)
    ensures |db.sellers| < MaxSellers && SellerEmailTaken(db.sellers, form.email) ==> r == Failure(DuplicateEmail)
    ensures r.Success? ==>
      var s := NewSeller(form, id, createdAt);
      && r.value.sellers == db.sellers + [s]
      && r.value.currentSeller == Some(s)
      && r.value == db.(sellers := r.value.sellers, currentSeller := r.value.currentSeller)
  {
    var taken := Seqs.FirstIndex(db.sellers, (s: Seller) => s.email == form.email).Some?;
    match Gate(|db.sellers|, MaxSellers, taken)
    case Some(e) => Failure(e)
    case None =>
      var s := NewSeller(form, id, createdAt);
      Success(db.(sellers := db.sellers + [s], currentSeller := Some(s)))
  }

  /** A successful seller sign-up keeps emails distinct and the count within capacity. */
  lemma RegisterSellerKeepsInvariant(db: RecordStore, form: SellerForm, id: string, createdAt: string)
    requires UniqueSellerEmails(db.sellers)
    requires RegisterSeller(db, form, id, createdAt).Success?
    ensures UniqueSellerEmails(RegisterSeller(db, form, id, createdAt).value.sellers)
    ensures |RegisterSeller(db, form, id, createdAt).value.sellers| <= MaxSellers
  {
    var after := RegisterSeller(db, form, id, createdAt).value.sellers;
    forall i, j | 0 <= i < j < |after|
      ensures after[i].email != after[j].email
    {
      if j == |db.sellers| {
        assert after[i] == db.sellers[i];
      }
    }
  }
}
