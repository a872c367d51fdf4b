/**
 * The profile page of the marketplace variant: the signed-in user edits
 * name, phone, address and bio; the edit is merged into the user, written
 * over the user's entry in `sellus_users` and into the session, and the new
 * name is copied onto every product the user sells (`sellerName` is stored
 * on each product).
 */
module Profile {
  import opened Wrappers
  import opened Seqs
  import opened Records
  import Listings

  datatype ProfileForm = ProfileForm(name: string, phone: string, address: string, bio: string)

  /** `{ ...user, ...formData }`. */
  function Merge(u: User, f: ProfileForm): (r: User)
    ensures r.name == f.name && r.phone == f.phone && r.address == f.address && r.bio == f.bio
    ensures r.id == u.id && r.email == u.email && r.password == u.password && r.createdAt == u.createdAt
  {
    u.(name := f.name, phone := f.phone, address := f.address, bio := f.bio)
  }

  /** The denormalised-name cascade over all products. */
  function RenameSeller(ps: seq<Product>, sellerId: string, name: string): (r: seq<Product>)
    ensures |r| == |ps|
    ensures forall i :: 0 <= i < |ps| ==> r[i].(sellerName := ps[i].sellerName) == ps[i]
    ensures forall i :: 0 <= i < |ps| && ps[i].sellerId == sellerId ==> r[i].sellerName == name
    ensures forall i :: 0 <= i < |ps| && ps[i].sellerId != sellerId ==> r[i] == ps[i]
  {
    seq(|ps|, i requires 0 <= i < |ps| =>
      if ps[i].sellerId == sellerId then ps[i].(sellerName := name) else ps[i])
  }

  /** The profile form's submit handler. */
  function UpdateProfile(db: RecordStore, form: ProfileForm): (r: Result<RecordStore, Error>)
    ensures r.Failure? <==> db.currentUser.None?
    ensures r.Failure? ==> r.error == NoSession
    ensures r.Success? ==>
      var user := db.currentUser.value;
      var updated := Merge(user, form);
      && r.value.currentUser == Some(updated)
      && |r.value.users| == |db.users|
      && (forall k :: 0 <= k < |db.users| ==>
            r.value.users[k] == (if IsFirstMatch(db.users, (u: User) => u.id == user.id, k) then updated else db.users[k]))
      && ((forall k :: 0 <= k < |db.users| ==> db.users[k].id != user.id) ==> r.value.users == db.users)
      && r.value.products == RenameSeller(db.products, user.id, form.name)
      && r.value == db.(currentUser := r.value.currentUser, users := r.value.users, products := r.value.products)
  {
    match db.currentUser
    case None => Failure(NoSession)
    case Some(user) =>
      var updated := Merge(user, form);
      Success(db.(users := ReplaceFirst(db.users, (u: User) => u.id == user.id, updated),
                  currentUser := Some(updated),
                  products := RenameSeller(db.products, user.id, form.name)))
  }

  /** Submitting the same edit twice is submitting it once. */
  lemma UpdateProfileIdempotent(db: RecordStore, form: ProfileForm)
    requires db.currentUser.Some?
    ensures var once := UpdateProfile(db, form).value;
      UpdateProfile(once, form) == Success(once)
  {
    var user := db.currentUser.value;
    var updated := Merge(user, form);
    ReplaceFirstTwice(db.users, (u: User) => u.id == user.id, updated, updated);
    var renamed := RenameSeller(db.products, user.id, form.name);
    assert RenameSeller(renamed, user.id, form.name) == renamed;
  }

  /** The products the profile page lists as the user's own. */
  function OwnedProducts(ps: seq<Product>, userId: string): (r: seq<Product>)
    ensures forall p :: p in r <==> p in ps && p.sellerId == userId
    ensures forall p :: multiset(r)[p] == if p.sellerId == userId then multiset(ps)[p] else 0
    ensures IsSubsequence(r, ps)
  {
    var owned := (p: Product) => p.sellerId == userId;
    FilterMultiset(ps, owned);
    Filter(ps, owned)
  }

  /** 1 for an available product, 0 otherwise. */
  function AvailableOne(p: Product): int {
    if p.available then 1 else 0
  }

  /** The "Available" figure: how many of the listed products are available. */
  function AvailableCount(owned: seq<Product>): (n: nat)
    ensures n <= |owned|
    ensures n == Sum(owned, AvailableOne)
  {
    FilterLengthCounts(owned, (p: Product) => p.available, AvailableOne);
    |Filter(owned, (p: Product) => p.available)|
  }

  /**
   * The available figure counts exactly the user's products that are
   * available, whichever way the two filters are combined.
   */
  lemma AvailableCountOfOwned(ps: seq<Product>, userId: string)
    ensures AvailableCount(OwnedProducts(ps, userId))
      == |Filter(ps, (p: Product) => p.sellerId == userId && p.available)|
  {
    FilterCompose(ps, (p: Product) => p.sellerId == userId, (p: Product) => p.available,
                  (p: Product) => p.sellerId == userId && p.available);
  }

  /**
   * After the cascade the user's own products are the same products, in the
   * same order, carrying the new name; the available figure is unchanged.
   */
  lemma {:induction false} RenameKeepsOwnedProducts(ps: seq<Product>, userId: string, name: string)
    ensures var before := OwnedProducts(ps, userId);
      var after := OwnedProducts(RenameSeller(ps, userId, name), userId);
      && |after| == |before|
      && (forall i :: 0 <= i < |after| ==> after[i] == before[i].(sellerName := name))
      && AvailableCount(after) == AvailableCount(before)
    decreases |ps|
  {
    RenameKeepsOwnedSequence(ps, userId, name);
    var before := OwnedProducts(ps, userId);
    var after := OwnedProducts(RenameSeller(ps, userId, name), userId);
    SumCongruent(after, AvailableOne, before, AvailableOne);
  }

  /** The positional half of `RenameKeepsOwnedProducts`. */
  lemma {:induction false} RenameKeepsOwnedSequence(ps: seq<Product>, userId: string, name: string)
    ensures var before := OwnedProducts(ps, userId);
      var after := OwnedProducts(RenameSeller(ps, userId, name), userId);
      && |after| == |before|
      && (forall i :: 0 <= i < |after| ==> after[i] == before[i].(sellerName := name))
    decreases |ps|
  {
    if |ps| > 0 {
      var renamed := RenameSeller(ps, userId, name);
      var owned := (p: Product) => p.sellerId == userId;
      assert renamed[1..] == RenameSeller(ps[1..], userId, name);
      RenameKeepsOwnedSequence(ps[1..], userId, name);
      FilterCons(ps, owned);
      FilterCons(renamed, owned);
      if owned(ps[0]) {
        ConsRenamed(ps[0], renamed[0], Filter(ps[1..], owned), Filter(renamed[1..], owned), name);
      }
    }
  }

  /** Renaming position by position carries over to a list with a new head. */
  lemma ConsRenamed(head: Product, head': Product, rest: seq<Product>, rest': seq<Product>, name: string)
    requires head' == head.(sellerName := name)
    requires |rest'| == |rest|
    requires forall i :: 0 <= i < |rest'| ==> rest'[i] == rest[i].(sellerName := name)
    ensures var before := [head] + rest;
      var after := [head'] + rest';
      |after| == |before| && forall i :: 0 <= i < |after| ==> after[i] == before[i].(sellerName := name)
  {
    var before := [head] + rest;
    var after := [head'] + rest';
    forall i | 1 <= i < |after| ensures after[i] == before[i].(sellerName := name) {
      assert after[i] == rest'[i - 1] && before[i] == rest[i - 1];
    }
  }

  /**
   * After a rename, searching the marketplace for the new name lists every
   * available product of that user.
   */
  lemma RenamedSellerIsFound(db: RecordStore, form: ProfileForm, p: Product)
    requires UpdateProfile(db, form).Success?
    requires p in UpdateProfile(db, form).value.products
    requires p.sellerId == db.currentUser.value.id && p.available
    ensures p in Listings.MarketplaceView(Listings.MarketplaceBase(UpdateProfile(db, form).value.products),
                                          form.name, Listings.AllCategories)
  {
    var i :| 0 <= i < |UpdateProfile(db, form).value.products| && UpdateProfile(db, form).value.products[i] == p;
    assert p.sellerName == form.name;
    Listings.MentionsItself(form.name);
  }
}
