/** Two-way merge of payment evidence that two releases stored in different places. */
module EvidenceMerge {
  import opened Prelude

  // -- SQL values -----------------------------------------------------------

  /** A member of a JSON object. `rendered` is the text `->>` gives for anything that is neither
      a string nor null. */
  datatype Member = Text(text: string) | Null | Other(rendered: string)

  datatype Details = Object(members: map<string, Member>) | NotAnObject

  /** One row of `payment_sessions`; None is SQL NULL. */
  datatype Payment = Payment(
    gatewayKey: Option<string>, idempotencyKey: Option<string>,
    details: Option<Details>, redirectUrl: Option<string>, trackingCode: Option<string>)

  /** The two (column, key) pairs that hold the same fact. */
  datatype Pair = RedirectUrl | TrackingCode

  function Key(pair: Pair): string {
    match pair
    case RedirectUrl => "payment_url"
    case TrackingCode => "tracking_code"
  }

  function ColumnOf(p: Payment, pair: Pair): Option<string> {
    match pair
    case RedirectUrl => p.redirectUrl
    case TrackingCode => p.trackingCode
  }

  function WithColumn(p: Payment, pair: Pair, v: Option<string>): Payment {
    match pair
    case RedirectUrl => p.(redirectUrl := v)
    case TrackingCode => p.(trackingCode := v)
  }

  function MemberOf(details: Option<Details>, key: string): Option<Member> {
    if details.Some? && details.value.Object? && key in details.value.members
    then Some(details.value.members[key]) else None
  }

  /** `payment_details->>'key'`. */
  function TextOf(details: Option<Details>, key: string): Option<string> {
    match MemberOf(details, key)
    case Some(Text(s)) => Some(s)
    case Some(Other(s)) => Some(s)
    case Some(Null) => None
    case None => None
  }

  /** `NULLIF(v, '')`. */
  function NonEmpty(v: Option<string>): Option<string> {
    if v == Some("") then None else v
  }

  /** What the row's JSON says about the pair. */
  function Told(p: Payment, pair: Pair): Option<string> {
    NonEmpty(TextOf(p.details, Key(pair)))
  }

  /** What the row's column says about the pair. */
  function Kept(p: Payment, pair: Pair): Option<string> {
    NonEmpty(ColumnOf(p, pair))
  }

  // -- the guard ------------------------------------------------------------

  predicate Disagrees(p: Payment, pair: Pair) {
    Kept(p, pair).Some? && Told(p, pair).Some? && ColumnOf(p, pair) != TextOf(p.details, Key(pair))
  }

  /** The row the conflict query selects. */
  predicate Conflicting(p: Payment) {
    || p.details == Some(NotAnObject)
    || Disagrees(p, RedirectUrl)
    || Disagrees(p, TrackingCode)
  }

  // -- the two updates ------------------------------------------------------

  function MembersOf(details: Option<Details>): map<string, Member>
    requires details != Some(NotAnObject)
  {
    if details.Some? then details.value.members else map[]
  }

  /** The first update: an empty JSON side takes the column's value, `jsonb_set`. */
  function ToDetails(p: Payment, pair: Pair): Payment
    requires p.details != Some(NotAnObject)
  {
    if Kept(p, pair).Some? && Told(p, pair).None?
    then p.(details := Some(Object(MembersOf(p.details)[Key(pair) := Text(ColumnOf(p, pair).value)])))
    else p
  }

  /** The second: an empty column takes the JSON side's text. */
  function ToColumn(p: Payment, pair: Pair): Payment {
    if Kept(p, pair).None? && Told(p, pair).Some?
    then WithColumn(p, pair, TextOf(p.details, Key(pair)))
    else p
  }

  function MergePair(p: Payment, pair: Pair): (m: Payment)
    requires p.details != Some(NotAnObject)
    ensures m.details != Some(NotAnObject)
  {
    ToColumn(ToDetails(p, pair), pair)
  }

  function Merge(p: Payment): (m: Payment)
    requires p.details != Some(NotAnObject)
    ensures m.details != Some(NotAnObject)
  {
    MergePair(MergePair(p, RedirectUrl), TrackingCode)
  }

  // -- what the merge means -------------------------------------------------

  predicate Agrees(p: Payment, pair: Pair) {
    Kept(p, pair) == Told(p, pair)
  }

  /** m is p with the pair completed: a side that had a value has it still, unchanged, a side
      that had none has the other's, and where neither had one nothing changed. */
  predicate Completes(p: Payment, m: Payment, pair: Pair) {
    && Kept(m, pair) == (if Kept(p, pair).Some? then Kept(p, pair) else Told(p, pair))
    && Told(m, pair) == (if Told(p, pair).Some? then Told(p, pair) else Kept(p, pair))
    && (Kept(p, pair).Some? || Told(p, pair).None? ==> ColumnOf(m, pair) == ColumnOf(p, pair))
    && (Told(p, pair).Some? || Kept(p, pair).None? ==>
          MemberOf(m.details, Key(pair)) == MemberOf(p.details, Key(pair)))
  }

  /** Nothing of the row outside the pair changed. */
  ghost predicate SameBeside(p: Payment, m: Payment, pair: Pair) {
    && m.gatewayKey == p.gatewayKey && m.idempotencyKey == p.idempotencyKey
    && (forall other: Pair :: other != pair ==> ColumnOf(m, other) == ColumnOf(p, other))
    && (forall key: string :: key != Key(pair) ==> MemberOf(m.details, key) == MemberOf(p.details, key))
  }

  lemma KeysDiffer()
    ensures Key(RedirectUrl) != Key(TrackingCode)
  {
    assert |Key(RedirectUrl)| != |Key(TrackingCode)|;
  }

  lemma MergePairCompletes(p: Payment, pair: Pair)
    requires p.details != Some(NotAnObject)
    ensures Completes(p, MergePair(p, pair), pair)
    ensures SameBeside(p, MergePair(p, pair), pair)
  {
    var q := ToDetails(p, pair);
    assert forall key: string :: key != Key(pair) ==> MemberOf(q.details, key) == MemberOf(p.details, key);
    if Kept(p, pair).Some? && Told(p, pair).None? {
      assert MemberOf(q.details, Key(pair)) == Some(Text(ColumnOf(p, pair).value));
    }
  }

  /** Both pairs are completed, every value that was there survives, and every other key, and
      the invoice's identity, are untouched. */
  lemma MergeCompletes(p: Payment)
    requires p.details != Some(NotAnObject)
    ensures forall pair: Pair :: Completes(p, Merge(p), pair)
    ensures Merge(p).gatewayKey == p.gatewayKey && Merge(p).idempotencyKey == p.idempotencyKey
    ensures forall key: string :: (forall pair: Pair :: key != Key(pair)) ==>
              MemberOf(Merge(p).details, key) == MemberOf(p.details, key)
  {
    KeysDiffer();
    var q := MergePair(p, RedirectUrl);
    MergePairCompletes(p, RedirectUrl);
    MergePairCompletes(q, TrackingCode);
    assert Completes(p, Merge(p), RedirectUrl);
    assert Completes(p, Merge(p), TrackingCode);
    forall pair: Pair ensures Completes(p, Merge(p), pair) {
      match pair
      case RedirectUrl =>
      case TrackingCode =>
    }
    forall key: string | forall pair: Pair :: key != Key(pair)
      ensures MemberOf(Merge(p).details, key) == MemberOf(p.details, key)
    {
      assert key != Key(RedirectUrl) && key != Key(TrackingCode);
    }
  }

  /** After the merge both pairs of a row agree exactly when the guard lets the row pass. */
  lemma MergeAgreesIff(p: Payment)
    requires p.details != Some(NotAnObject)
    ensures (forall pair: Pair :: Agrees(Merge(p), pair)) <==> !Conflicting(p)
  {
    MergeCompletes(p);
    forall pair: Pair ensures Agrees(Merge(p), pair) <==> !Disagrees(p, pair) {
      assert Completes(p, Merge(p), pair);
    }
    assert (forall pair: Pair :: Agrees(Merge(p), pair)) ==>
      Agrees(Merge(p), RedirectUrl) && Agrees(Merge(p), TrackingCode);
  }

  // -- fact by fact -----------------------------------------------------------

  /** The row's JSON is an object that shows this text, not empty, under the key. */
  predicate Shows(details: Option<Details>, key: string, s: string) {
    && s != "" && details.Some? && details.value.Object? && key in details.value.members
    && (details.value.members[key] == Text(s) || details.value.members[key] == Other(s))
  }

  ghost predicate ShowsSomething(details: Option<Details>, key: string) {
    exists s :: Shows(details, key, s)
  }

  predicate HasMember(details: Option<Details>, key: string, v: Member) {
    details.Some? && details.value.Object? && key in details.value.members && details.value.members[key] == v
  }

  ghost predicate SameMember(a: Option<Details>, b: Option<Details>, key: string) {
    forall v :: HasMember(a, key, v) <==> HasMember(b, key, v)
  }

  /** What becomes of a column and the member of that key, by what is in them: a text that is not
      empty stays in its place and fills the other if that has none; else nothing moves. */
  ghost predicate FactMerged(column: Option<string>, columnAfter: Option<string>,
                             details: Option<Details>, detailsAfter: Option<Details>, key: string) {
    if column.None? || column == Some("") then
      && SameMember(details, detailsAfter, key)
      && (forall s :: Shows(details, key, s) ==> columnAfter == Some(s))
      && (!ShowsSomething(details, key) ==> columnAfter == column)
    else
      && columnAfter == column
      && (ShowsSomething(details, key) ==> SameMember(details, detailsAfter, key))
      && (!ShowsSomething(details, key) ==> HasMember(detailsAfter, key, Text(column.value)))
  }

  lemma ToldIs(p: Payment, pair: Pair)
    ensures forall s :: Told(p, pair) == Some(s) <==> Shows(p.details, Key(pair), s)
    ensures Told(p, pair).Some? <==> ShowsSomething(p.details, Key(pair))
  {
    forall s ensures Told(p, pair) == Some(s) <==> Shows(p.details, Key(pair), s) {
    }
    if Told(p, pair).Some? { assert Shows(p.details, Key(pair), Told(p, pair).value); }
  }

  lemma MemberIs(details: Option<Details>, key: string)
    ensures forall v :: MemberOf(details, key) == Some(v) <==> HasMember(details, key, v)
  {
  }

  lemma PairMerged(p: Payment, pair: Pair)
    requires p.details != Some(NotAnObject)
    ensures FactMerged(ColumnOf(p, pair), ColumnOf(Merge(p), pair), p.details, Merge(p).details, Key(pair))
  {
    MergeCompletes(p);
    var m := Merge(p);
    assert Completes(p, m, pair);
    ToldIs(p, pair);
    ToldIs(m, pair);
    MemberIs(p.details, Key(pair));
    MemberIs(m.details, Key(pair));
    if Kept(p, pair).Some? && Told(p, pair).None? {
      FilledMember(p, pair);
    }
  }

  lemma FilledMember(p: Payment, pair: Pair)
    requires p.details != Some(NotAnObject) && Kept(p, pair).Some? && Told(p, pair).None?
    ensures MemberOf(Merge(p).details, Key(pair)) == Some(Text(ColumnOf(p, pair).value))
  {
    KeysDiffer();
    var q := MergePair(p, RedirectUrl);
    MergePairCompletes(p, RedirectUrl);
    MergePairCompletes(q, TrackingCode);
    assert MemberOf(ToDetails(p, pair).details, Key(pair)) == Some(Text(ColumnOf(p, pair).value));
  }

  /** The merge, said of the two columns and the two members by name. */
  lemma MergedFactByFact(p: Payment)
    requires p.details != Some(NotAnObject)
    ensures FactMerged(p.redirectUrl, Merge(p).redirectUrl, p.details, Merge(p).details, "payment_url")
    ensures FactMerged(p.trackingCode, Merge(p).trackingCode, p.details, Merge(p).details, "tracking_code")
    ensures forall key :: key != "payment_url" && key != "tracking_code" ==>
              SameMember(p.details, Merge(p).details, key)
  {
    PairMerged(p, RedirectUrl);
    PairMerged(p, TrackingCode);
    MergeCompletes(p);
    forall key | key != "payment_url" && key != "tracking_code" ensures SameMember(p.details, Merge(p).details, key) {
      forall pair: Pair ensures key != Key(pair) {
      }
      MemberIs(p.details, key);
      MemberIs(Merge(p).details, key);
    }
  }

  /** The rows the guard refuses: details that are no object, or a column and its member that both
      hold a text and not the same. */
  lemma ConflictingIff(p: Payment)
    ensures Conflicting(p) <==>
              || p.details == Some(NotAnObject)
              || (exists s, t :: p.redirectUrl == Some(s) && s != "" && Shows(p.details, "payment_url", t) && s != t)
              || (exists s, t :: p.trackingCode == Some(s) && s != "" && Shows(p.details, "tracking_code", t) && s != t)
  {
    ToldIs(p, RedirectUrl);
    ToldIs(p, TrackingCode);
    forall pair: Pair
      ensures Disagrees(p, pair) <==>
                exists s, t :: ColumnOf(p, pair) == Some(s) && s != "" && Shows(p.details, Key(pair), t) && s != t
    {
      ToldIs(p, pair);
      if Disagrees(p, pair) {
        assert Shows(p.details, Key(pair), Told(p, pair).value) && ColumnOf(p, pair) == Some(Kept(p, pair).value);
      }
    }
  }

  lemma MergePairFixed(p: Payment, pair: Pair)
    requires p.details != Some(NotAnObject) && Agrees(p, pair)
    ensures MergePair(p, pair) == p
  {
  }

  /** A row whose pairs agree is left exactly as it is, so merging twice is merging once. */
  lemma MergeIsIdempotent(p: Payment)
    requires !Conflicting(p)
    ensures Merge(Merge(p)) == Merge(p) && !Conflicting(Merge(p))
  {
    var m := Merge(p);
    MergeAgreesIff(p);
    assert Agrees(m, RedirectUrl) && Agrees(m, TrackingCode);
    MergePairFixed(m, RedirectUrl);
    MergePairFixed(m, TrackingCode);
  }
}
