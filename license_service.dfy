/**
 * The licence overview (`LicenseService.getAllLicensesWithValidity`): every
 * licence of every carrier, tagged with its carrier, the days left until it
 * expires and a status, listed once in `all` and once in the bucket of its
 * status. The clock and the date arithmetic are a parameter: `daysLeft` maps
 * a stored DD/MM/YYYY date to the whole number of days until it.
 */
module LicenseService {
  import opened Wrappers
  import opened JsArray
  import opened Carriers
  import opened DestinationLicenses
  import Response

  const Listed: string := "Licenças listadas com status de validade"
  const ListError: string := "Erro ao listar licenças"

  /** Days of warning before expiry. */
  const ExpiringWindow: int := 180

  datatype Status = Valid | ExpiringSoon | Expired

  /** The status of a licence `days` days before its expiry date. */
  function StatusOf(days: int): (s: Status)
    ensures s == Expired <==> days < 0
    ensures s == ExpiringSoon <==> 0 <= days <= ExpiringWindow
    ensures s == Valid <==> days > ExpiringWindow
  {
    if days < 0 then Expired else if days <= ExpiringWindow then ExpiringSoon else Valid
  }

  /** The `transportadora` summary attached to each entry. */
  datatype CarrierRef = CarrierRef(id: int, nome: string, pais: string)

  datatype Entry = Entry(licence: Licence, transportadora: CarrierRef, status: Status, diasParaVencer: int)

  datatype Buckets = Buckets(all: seq<Entry>, valid: seq<Entry>, expiringSoon: seq<Entry>, expired: seq<Entry>)

  function RefOf(c: Carrier): CarrierRef {
    CarrierRef(c.id, c.nome, c.pais)
  }

  function EntryOf(c: Carrier, l: Licence, daysLeft: string -> int): Entry
    requires l.vencimentoLicenca.Some?
  {
    var days := daysLeft(l.vencimentoLicenca.value);
    Entry(l, RefOf(c), StatusOf(days), days)
  }

  /** The entries of one carrier's licences, in order; none when a licence has no expiry date. */
  function CarrierEntries(c: Carrier, ls: seq<Licence>, daysLeft: string -> int): Option<seq<Entry>> {
    if ls == [] then Some([])
    else
      var init := CarrierEntries(c, ls[..|ls| - 1], daysLeft);
      var l := ls[|ls| - 1];
      if init.None? || l.vencimentoLicenca.None? then None
      else Some(init.value + [EntryOf(c, l, daysLeft)])
  }

  /** The entries of all carriers' licences, carrier by carrier. */
  function AllEntries(cs: seq<Carrier>, rows: seq<Licence>, daysLeft: string -> int): Option<seq<Entry>> {
    if cs == [] then Some([])
    else
      var init := AllEntries(cs[..|cs| - 1], rows, daysLeft);
      var mine := CarrierEntries(cs[|cs| - 1], RowsOf(rows, cs[|cs| - 1].id), daysLeft);
      if init.None? || mine.None? then None
      else Some(init.value + mine.value)
  }

  function HasStatus(s: Status): Entry -> bool {
    (e: Entry) => e.status == s
  }

  /** The answer's data: `all` and the three buckets, each in the order of `all`. */
  function Bucketed(all: seq<Entry>): Buckets {
    Buckets(all, Filter(all, HasStatus(Valid)), Filter(all, HasStatus(ExpiringSoon)), Filter(all, HasStatus(Expired)))
  }

  /** Some licence of `ls` has no expiry date. */
  predicate Undated(ls: seq<Licence>) {
    exists l | l in ls :: l.vencimentoLicenca.None?
  }

  /** Some licence of a listed carrier has no expiry date, which makes the date parsing throw. */
  predicate MissingExpiry(cs: seq<Carrier>, rows: seq<Licence>) {
    exists i | 0 <= i < |cs| :: Undated(RowsOf(rows, cs[i].id))
  }

  /** The number of licences the listed carriers hold. */
  function LicenceCount(cs: seq<Carrier>, rows: seq<Licence>): nat {
    if cs == [] then 0 else LicenceCount(cs[..|cs| - 1], rows) + |RowsOf(rows, cs[|cs| - 1].id)|
  }

  /**
   * One carrier's entries: one per licence, in order, each carrying the
   * carrier, the licence, its days left and the status of those days.
   */
  lemma {:induction false} CarrierEntriesSpec(c: Carrier, ls: seq<Licence>, daysLeft: string -> int)
    ensures CarrierEntries(c, ls, daysLeft).None? <==> Undated(ls)
    ensures var es := CarrierEntries(c, ls, daysLeft);
            es.Some? ==>
              && |es.value| == |ls|
              && forall k | 0 <= k < |ls| ::
                   && ls[k].vencimentoLicenca.Some?
                   && es.value[k] == Entry(ls[k], RefOf(c), StatusOf(daysLeft(ls[k].vencimentoLicenca.value)),
                                           daysLeft(ls[k].vencimentoLicenca.value))
  {
    if ls != [] {
      var init := ls[..|ls| - 1];
      CarrierEntriesSpec(c, init, daysLeft);
      if Undated(init) {
        var l :| l in init && l.vencimentoLicenca.None?;
        assert l in ls;
      }
      if ls[|ls| - 1].vencimentoLicenca.None? {
        assert ls[|ls| - 1] in ls;
      }
      if CarrierEntries(c, ls, daysLeft).None? {
        if CarrierEntries(c, init, daysLeft).Some? {
          assert ls[|ls| - 1].vencimentoLicenca.None?;
        }
      } else {
        forall l | l in ls ensures l.vencimentoLicenca.Some? {
          var k :| 0 <= k < |ls| && ls[k] == l;
          if k < |init| {
            assert init[k] == l;
          }
        }
        forall k | 0 <= k < |init| ensures ls[k] == init[k] {
        }
      }
    }
  }

  /** A licence without a date among the listed carriers: among the first ones, or the last one's. */
  lemma MissingExpiryAppend(cs: seq<Carrier>, rows: seq<Licence>)
    requires cs != []
    ensures MissingExpiry(cs, rows) <==> MissingExpiry(cs[..|cs| - 1], rows) || Undated(RowsOf(rows, cs[|cs| - 1].id))
  {
    var init := cs[..|cs| - 1];
    assert cs == init + [cs[|cs| - 1]];
    SomeInPrefixOrLast(init, cs[|cs| - 1], (c: Carrier) => Undated(RowsOf(rows, c.id)));
  }

  /** Some carrier of `init + [last]` satisfies `p` exactly when one of `init` or `last` does. */
  lemma SomeInPrefixOrLast(init: seq<Carrier>, last: Carrier, p: Carrier -> bool)
    ensures (exists i | 0 <= i < |init + [last]| :: p((init + [last])[i]))
            <==> (exists i | 0 <= i < |init| :: p(init[i])) || p(last)
  {
    var cs := init + [last];
    if exists i | 0 <= i < |init| :: p(init[i]) {
      var i :| 0 <= i < |init| && p(init[i]);
      assert cs[i] == init[i];
    }
    if exists i | 0 <= i < |cs| :: p(cs[i]) {
      var i :| 0 <= i < |cs| && p(cs[i]);
      if i < |init| {
        assert init[i] == cs[i];
      }
    }
    assert cs[|init|] == last;
  }

  /**
   * The listing fails exactly when some licence of a listed carrier has no
   * expiry date; otherwise it has one entry per licence, carrier by carrier.
   */
  lemma {:induction false} AllEntriesSpec(cs: seq<Carrier>, rows: seq<Licence>, daysLeft: string -> int)
    ensures AllEntries(cs, rows, daysLeft).None? <==> MissingExpiry(cs, rows)
    ensures AllEntries(cs, rows, daysLeft).Some? ==> |AllEntries(cs, rows, daysLeft).value| == LicenceCount(cs, rows)
  {
    if cs != [] {
      var init, c := cs[..|cs| - 1], cs[|cs| - 1];
      AllEntriesSpec(init, rows, daysLeft);
      CarrierEntriesSpec(c, RowsOf(rows, c.id), daysLeft);
      MissingExpiryAppend(cs, rows);
    }
  }

  /** Every entry lands in exactly one bucket: the three sizes add up to the size of `all`. */
  lemma {:induction false} BucketsPartition(all: seq<Entry>)
    ensures var b := Bucketed(all);
            |b.valid| + |b.expiringSoon| + |b.expired| == |all|
    ensures var b := Bucketed(all);
            forall e | e in all ::
              && (e in b.valid <==> e.status == Valid)
              && (e in b.expiringSoon <==> e.status == ExpiringSoon)
              && (e in b.expired <==> e.status == Expired)
  {
    if all != [] {
      BucketsPartition(all[..|all| - 1]);
    }
  }

  /** Appending an entry appends it to `all` and to the bucket of its status, and nowhere else. */
  lemma BucketedAppend(all: seq<Entry>, e: Entry)
    ensures var b, b' := Bucketed(all), Bucketed(all + [e]);
            && b'.valid == b.valid + (if e.status == Valid then [e] else [])
            && b'.expiringSoon == b.expiringSoon + (if e.status == ExpiringSoon then [e] else [])
            && b'.expired == b.expired + (if e.status == Expired then [e] else [])
  {
    assert (all + [e])[..|all|] == all;
  }

  /** The inner loop: one carrier's licences appended to `all` and to their buckets. */
  method AddCarrier(c: Carrier, ls: seq<Licence>, daysLeft: string -> int, b0: Buckets) returns (b: Option<Buckets>)
    requires b0 == Bucketed(b0.all)
    ensures CarrierEntries(c, ls, daysLeft).None? ==> b.None?
    ensures CarrierEntries(c, ls, daysLeft).Some? ==> b == Some(Bucketed(b0.all + CarrierEntries(c, ls, daysLeft).value))
  {
    var all, valid, expiringSoon, expired := b0.all, b0.valid, b0.expiringSoon, b0.expired;
    var j := 0;
    ghost var entries: seq<Entry> := [];
    while j < |ls|
      invariant 0 <= j <= |ls|
      invariant CarrierEntries(c, ls[..j], daysLeft) == Some(entries)
      invariant all == b0.all + entries
      invariant Buckets(all, valid, expiringSoon, expired) == Bucketed(all)
    {
      var l := ls[j];
      if l.vencimentoLicenca.None? {
        CarrierEntriesStep(c, ls, j, daysLeft);
        CarrierEntriesNoneExtends(c, ls, j + 1, daysLeft);
        return None;
      }
      var days := daysLeft(l.vencimentoLicenca.value);
      var status := StatusOf(days);
      var e := Entry(l, RefOf(c), status, days);
      AddCarrierStep(c, ls, j, daysLeft, b0, entries, Buckets(all, valid, expiringSoon, expired), e);
      entries := entries + [e];
      all := all + [e];
      if status == Expired {
        expired := expired + [e];
      } else if status == ExpiringSoon {
        expiringSoon := expiringSoon + [e];
      } else {
        valid := valid + [e];
      }
      j := j + 1;
    }
    assert ls[..j] == ls;
    return Some(Buckets(all, valid, expiringSoon, expired));
  }

  /** One dated licence more: its entry extends the carrier's entries, `all` and its own bucket. */
  lemma AddCarrierStep(c: Carrier, ls: seq<Licence>, j: nat, daysLeft: string -> int, b0: Buckets,
                       entries: seq<Entry>, b: Buckets, e: Entry)
    requires j < |ls| && ls[j].vencimentoLicenca.Some? && e == EntryOf(c, ls[j], daysLeft)
    requires CarrierEntries(c, ls[..j], daysLeft) == Some(entries)
    requires b.all == b0.all + entries && b == Bucketed(b.all)
    ensures CarrierEntries(c, ls[..j + 1], daysLeft) == Some(entries + [e])
    ensures b.all + [e] == b0.all + (entries + [e])
    ensures Bucketed(b.all + [e])
            == Buckets(b.all + [e],
                       b.valid + (if e.status == Valid then [e] else []),
                       b.expiringSoon + (if e.status == ExpiringSoon then [e] else []),
                       b.expired + (if e.status == Expired then [e] else []))
  {
    CarrierEntriesStep(c, ls, j, daysLeft);
    BucketedAppend(b.all, e);
  }

  /** One more licence of the carrier: its entry is appended, or the entries fail on a missing date. */
  lemma CarrierEntriesStep(c: Carrier, ls: seq<Licence>, j: nat, daysLeft: string -> int)
    requires j < |ls| && CarrierEntries(c, ls[..j], daysLeft).Some?
    ensures ls[j].vencimentoLicenca.None? ==> CarrierEntries(c, ls[..j + 1], daysLeft).None?
    ensures ls[j].vencimentoLicenca.Some? ==>
              CarrierEntries(c, ls[..j + 1], daysLeft)
              == Some(CarrierEntries(c, ls[..j], daysLeft).value + [EntryOf(c, ls[j], daysLeft)])
  {
    assert ls[..j + 1][..j] == ls[..j];
    assert ls[..j + 1][j] == ls[j];
  }

  /** Once a prefix has a licence without a date, every longer prefix has one too. */
  lemma {:induction false} CarrierEntriesNoneExtends(c: Carrier, ls: seq<Licence>, n: nat, daysLeft: string -> int)
    requires n <= |ls|
    requires CarrierEntries(c, ls[..n], daysLeft).None?
    ensures CarrierEntries(c, ls, daysLeft).None?
    decreases |ls| - n
  {
    if n < |ls| {
      assert ls[..n + 1][..n] == ls[..n];
      CarrierEntriesNoneExtends(c, ls, n + 1, daysLeft);
    } else {
      assert ls[..n] == ls;
    }
  }

  /**
   * `getAllLicensesWithValidity()`. `carriers` is the carrier list as the
   * query returns it (ordered by name); each carrier's licences come from the
   * licence table in table order.
   */
  method GetAllLicensesWithValidity(carriers: seq<Carrier>, licences: LicenceTable, daysLeft: string -> int)
    returns (resp: Response.ApiResponse<Buckets>)
    ensures var entries := AllEntries(carriers, licences.rows, daysLeft);
            resp == if entries.None? then Response.Fail(ListError, 500)
                    else Response.Success(Bucketed(entries.value), Some(Listed))
  {
    var b := Bucketed([]);
    var i := 0;
    while i < |carriers|
      invariant 0 <= i <= |carriers|
      invariant AllEntries(carriers[..i], licences.rows, daysLeft) == Some(b.all)
      invariant b == Bucketed(b.all)
    {
      assert carriers[..i + 1][..i] == carriers[..i];
      var found := licences.FindByTransportadora(carriers[i].id);
      var next := AddCarrier(carriers[i], found, daysLeft, b);
      if next.None? {
        AllEntriesNoneExtends(carriers, i + 1, licences.rows, daysLeft);
        return Response.Fail(ListError, 500);
      }
      b := next.value;
      i := i + 1;
    }
    assert carriers[..i] == carriers;
    return Response.Success(b, Some(Listed));
  }

  lemma {:induction false} AllEntriesNoneExtends(cs: seq<Carrier>, n: nat, rows: seq<Licence>, daysLeft: string -> int)
    requires n <= |cs|
    requires AllEntries(cs[..n], rows, daysLeft).None?
    ensures AllEntries(cs, rows, daysLeft).None?
    decreases |cs| - n
  {
    if n < |cs| {
      assert cs[..n + 1][..n] == cs[..n];
      AllEntriesNoneExtends(cs, n + 1, rows, daysLeft);
    } else {
      assert cs[..n] == cs;
    }
  }
}
