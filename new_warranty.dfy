/** The "new warranty" page: the warranty number generator and the form
    submission that inserts a pending warranty for the signed-in client. */
module NewWarranty {
  import opened Common
  import opened Text
  import opened Store

  const Prefix: string := "TG"

  /** `Date.now().toString().slice(-8)`: the last eight characters of the
      decimal clock reading, or all of it when it is shorter. */
  function ClockDigits(now: nat): (t: string)
    ensures 1 <= |t| <= 8 && AllDigits(t)
  {
    var d := ToDecimal(now);
    if |d| <= 8 then d else d[|d| - 8..]
  }

  /** `Math.floor(Math.random() * 1000)` for a draw `x` in [0, 1). */
  function RandomDraw(x: real): (r: nat)
    requires 0.0 <= x < 1.0
    ensures r < 1000
  {
    (x * 1000.0).Floor
  }

  /** `r.toString().padStart(3, '0')`. */
  function RandomDigits(r: nat): string {
    PadStart(ToDecimal(r), 3, '0')
  }

  /** `generateWarrantyNumber`: the prefix, the clock digits, the padded
      random draw. */
  function GenerateWarrantyNumber(now: nat, x: real): (n: string)
    requires 0.0 <= x < 1.0
    ensures |n| >= 6 && n[..2] == Prefix
  {
    Prefix + ClockDigits(now) + RandomDigits(RandomDraw(x))
  }

  /** The clock digits read back as the clock reading modulo 10^8. */
  lemma ClockDigitsValue(now: nat)
    ensures ParseDecimal(ClockDigits(now)) == now % Pow10(8)
  {
    var d := ToDecimal(now);
    ParseToDecimal(now);
    if |d| <= 8 {
      DecimalLength(now, 8);
      DivModUnique(now, Pow10(8), 0, now);
    } else {
      var a, b := d[..|d| - 8], d[|d| - 8..];
      assert d == a + b;
      ParseConcat(a, b);
      ParseBound(b);
      DivModUnique(now, Pow10(8), ParseDecimal(a), ParseDecimal(b));
    }
  }

  /** The clock digits are exactly eight long once the clock has reached
      10^7 milliseconds, and shorter before. */
  lemma ClockDigitsLength(now: nat)
    ensures |ClockDigits(now)| == 8 <==> now >= Pow10(7)
  {
    DecimalLength(now, 7);
  }

  /** The random part is three digits that read back as the draw. */
  lemma RandomDigitsRoundTrip(r: nat)
    requires r < 1000
    ensures |RandomDigits(r)| == 3 && AllDigits(RandomDigits(r))
    ensures ParseDecimal(RandomDigits(r)) == r
  {
    var d := ToDecimal(r);
    DecimalLength(r, 3);
    assert Pow10(3) == 1000;
    ParseToDecimal(r);
    ParseLeadingZeros(3 - |d|, d);
    if |d| < 3 {
      assert RandomDigits(r) == Repeat('0', 3 - |d|) + d;
    }
  }

  /** Splits a warranty number into its clock and random parts: `TG`, then
      eleven digits. */
  function ParseWarrantyNumber(n: string): Option<(nat, nat)> {
    if |n| == 13 && n[..2] == Prefix && AllDigits(n[2..])
    then
      assert AllDigits(n[2..10]) && AllDigits(n[10..]) by {
        assert forall i | 0 <= i < 8 :: n[2..10][i] == n[2..][i];
        assert forall i | 0 <= i < 3 :: n[10..][i] == n[2..][i + 8];
      }
      Some((ParseDecimal(n[2..10]), ParseDecimal(n[10..])))
    else None
  }

  /** Once the clock has eight digits, a generated number has the prefix and
      eleven digits, and splitting it gives back the clock reading modulo
      10^8 and the random draw. */
  lemma GeneratedNumberRoundTrip(now: nat, x: real)
    requires now >= Pow10(7)
    requires 0.0 <= x < 1.0
    ensures |GenerateWarrantyNumber(now, x)| == 13
    ensures ParseWarrantyNumber(GenerateWarrantyNumber(now, x)) == Some((now % Pow10(8), RandomDraw(x)))
  {
    ClockDigitsLength(now);
    ClockDigitsValue(now);
    RandomDigitsRoundTrip(RandomDraw(x));
    SplitNumber(ClockDigits(now), RandomDigits(RandomDraw(x)));
  }

  /** The prefix, eight digits and three digits split back into the values
      of the two digit groups. */
  lemma SplitNumber(c: string, r: string)
    requires |c| == 8 && AllDigits(c)
    requires |r| == 3 && AllDigits(r)
    ensures ParseWarrantyNumber(Prefix + c + r) == Some((ParseDecimal(c), ParseDecimal(r)))
  {
    var n := Prefix + c + r;
    assert n[2..10] == c && n[10..] == r && n[..2] == Prefix;
    assert n[2..] == c + r;
    assert AllDigits(n[2..]);
  }

  /** The number is not unique: clock readings 10^8 ms apart with the same
      draw give the same number. */
  lemma GeneratedNumberRepeats(now: nat, x: real)
    requires now >= Pow10(7)
    requires 0.0 <= x < 1.0
    ensures GenerateWarrantyNumber(now + Pow10(8), x) == GenerateWarrantyNumber(now, x)
  {
    var later := now + Pow10(8);
    Pow10Monotone(7, 8);
    ClockDigitsLength(now);
    ClockDigitsLength(later);
    ClockDigitsValue(now);
    ClockDigitsValue(later);
    ModShift(now, Pow10(8));
    ParseInjective(ClockDigits(now), ClockDigits(later));
  }

  /** Adding the modulus does not change a remainder. */
  lemma ModShift(a: nat, m: nat)
    requires m > 0
    ensures (a + m) % m == a % m
  {
    var q, r := a / m, a % m;
    assert a + m == (q + 1) * m + r;
    DivModUnique(a + m, m, q + 1, r);
  }

  // -------------------------------------------------------------- page

  /** The form fields as typed. `value` is the already-parsed amount. */
  datatype Form = Form(
    kind: string,
    beneficiary: string,
    value: real,
    startDate: string,
    endDate: string,
    description: string)

  /** The insert `handleSubmit` sends for the user `u`: owned by `u`, with
      the generated number, the form's fields as typed, and status pending
      whatever else is on the form. */
  function InsertRecord(u: User, form: Form, number: string): (n: NewRow)
    ensures n.status == Pending
    ensures n.clientId == u.id && n.number == number
    ensures n.kind == form.kind && n.beneficiary == form.beneficiary && n.value == form.value
    ensures n.startDate == form.startDate && n.endDate == form.endDate
    ensures n.description == Some(form.description)
  {
    NewRow(u.id, number, form.kind, form.beneficiary, form.value,
           form.startDate, form.endDate, Some(form.description), Pending)
  }

  const Requested: string := "Garantia solicitada com sucesso!"
  const RequestFailed: string := "Erro ao solicitar garantia"
  /** What reading `user.id` raises while no user is set, in the V8
      engine's wording; other engines word this `TypeError` differently. */
  const NoUser: string := "Cannot read properties of null (reading 'id')"

  class NewWarrantyPage {
    var user: Option<User>
    var loading: bool
    var form: Form
    var route: Option<Route>
    var toast: Option<Toast>

    constructor ()
      ensures user == None && !loading && form == Form("", "", 0.0, "", "", "")
      ensures route == None && toast == None
    {
      user := None;
      loading := false;
      form := Form("", "", 0.0, "", "", "");
      route := None;
      toast := None;
    }

    /** `checkUser`: nobody signed in goes to the login page; otherwise the
        user is recorded. */
    method CheckUser(currentUser: Option<User>)
      modifies this
      ensures currentUser.None? ==> route == Some(Login) && user == old(user)
      ensures currentUser.Some? ==> user == currentUser && route == old(route)
      ensures loading == old(loading) && form == old(form) && toast == old(toast)
    {
      if currentUser.None? {
        route := Some(Login);
        return;
      }
      user := currentUser;
    }

    /** Editing the form. */
    method SetForm(f: Form)
      modifies this
      ensures form == f
      ensures user == old(user) && loading == old(loading) && route == old(route) && toast == old(toast)
    {
      form := f;
    }

    /** `handleSubmit`: inserts the form as a pending warranty of the current
        user under a fresh number. On success the page goes to the dashboard;
        on failure (no user, a store error) it toasts the error and stays.
        Loading is off afterwards either way. `now` is the clock reading, `x`
        the random draw, `id` and `stamp` what the store assigns. */
    method HandleSubmit(store: WarrantyStore, now: nat, x: real, id: string, stamp: string,
                        failure: Option<string>)
      requires 0.0 <= x < 1.0
      requires store.Valid()
      modifies this, store
      ensures store.Valid() && store.profiles == old(store.profiles)
      ensures !loading && user == old(user) && form == old(form)
      ensures old(user).None? ==>
        store.rows == old(store.rows) && route == old(route) && toast == Some(Error(NoUser))
      ensures old(user).Some? && failure.Some? ==>
        && store.rows == old(store.rows) && route == old(route)
        && toast == Some(Error(MessageOr(failure.value, RequestFailed)))
      ensures old(user).Some? && failure.None? && HasId(old(store.rows), id) ==>
        && store.rows == old(store.rows) && route == old(route)
        && toast == Some(Error(DuplicateKey))
      ensures old(user).Some? && failure.None? && !HasId(old(store.rows), id) ==>
        && store.rows == old(store.rows)
                         + [Stored(InsertRecord(old(user).value, old(form), GenerateWarrantyNumber(now, x)), id, stamp)]
        && route == Some(Dashboard) && toast == Some(Success(Requested))
    {
      loading := true;
      var number := GenerateWarrantyNumber(now, x);
      if user.None? {
        toast := Some(Error(NoUser));
      } else {
        var record := InsertRecord(user.value, form, number);
        var err := store.Insert(record, id, stamp, failure);
        assert !HasId(old(store.rows), id) && failure.None? ==> store.rows == old(store.rows) + [Stored(record, id, stamp)];
        if err.Some? {
          toast := Some(Error(MessageOr(err.value, RequestFailed)));
        } else {
          toast := Some(Success(Requested));
          route := Some(Dashboard);
        }
      }
      loading := false;
    }
  }
}
