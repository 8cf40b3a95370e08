/**
 * SCCommand: the action numbers of the commands the SDK dispatches. Each
 * constant is declared with a number; value() gives it back and
 * fromActionNumber searches the constants in declaration order for a number,
 * throwing IllegalArgumentException when none carries it.
 * Constructor names are the Java constant names in PascalCase
 * (NO_ACTION is NoAction, DATASERVICE_QUERY is DataserviceQuery).
 *
 * Two constants, NOTIFICATION_INFO and NOTIFICATION_CONTENT_AVAILABLE, are
 * declared with the same number 602, so the reverse lookup answers
 * NOTIFICATION_INFO for both: it is a left inverse of value() on every other
 * constant only.
 */
module Commands {
  import opened Wrappers

  datatype Command
    = NoAction
    | StartAllServices
    | DataserviceActivestoreslist
    | DataserviceActivestorebyid
    | DataserviceStorelist
    | DataserviceQuery
    | DataserviceQueryall
    | DataserviceSpatialquery
    | DataserviceSpatialqueryall
    | DataserviceCreatefeature
    | DataserviceUpdatefeature
    | DataserviceDeletefeature
    | DataserviceFormlist
    | SensorserviceGps
    | AuthserviceAuthenticate
    | AuthserviceLogout
    | AuthserviceAccessToken
    | AuthserviceLoginStatus
    | NetworkserviceGetRequest
    | NetworkservicePostRequest
    | ConfigFull
    | ConfigStoreList
    | ConfigAddStore
    | ConfigRemoveStore
    | ConfigUpdateStore
    | ConfigFormList
    | ConfigAddForm
    | ConfigRemoveForm
    | ConfigUpdateForm
    | ConfigRegisterDevice
    | Notifications
    | NotificationAlert
    | NotificationInfo
    | NotificationContentAvailable
    | BackendserviceHttpUri
    | BackendserviceMqttConnected

  /** The number of constants. */
  const Count: nat := 36

  /** value(): the action number the constant is declared with. */
  function Value(c: Command): int
  {
    match c
    case NoAction => 0
    case StartAllServices => 1
    case DataserviceActivestoreslist => 100
    case DataserviceActivestorebyid => 101
    case DataserviceStorelist => 102
    case DataserviceQuery => 110
    case DataserviceQueryall => 111
    case DataserviceSpatialquery => 112
    case DataserviceSpatialqueryall => 113
    case DataserviceCreatefeature => 114
    case DataserviceUpdatefeature => 115
    case DataserviceDeletefeature => 116
    case DataserviceFormlist => 117
    case SensorserviceGps => 200
    case AuthserviceAuthenticate => 300
    case AuthserviceLogout => 301
    case AuthserviceAccessToken => 302
    case AuthserviceLoginStatus => 303
    case NetworkserviceGetRequest => 400
    case NetworkservicePostRequest => 401
    case ConfigFull => 500
    case ConfigStoreList => 501
    case ConfigAddStore => 502
    case ConfigRemoveStore => 503
    case ConfigUpdateStore => 504
    case ConfigFormList => 505
    case ConfigAddForm => 506
    case ConfigRemoveForm => 507
    case ConfigUpdateForm => 508
    case ConfigRegisterDevice => 509
    case Notifications => 600
    case NotificationAlert => 601
    case NotificationInfo => 602
    case NotificationContentAvailable => 602
    case BackendserviceHttpUri => 701
    case BackendserviceMqttConnected => 702
  }

  /** values()[i]: the constant declared at position i. */
  function CommandAt(i: nat): Command
    requires i < Count
  {
    match i
    case 0 => NoAction
    case 1 => StartAllServices
    case 2 => DataserviceActivestoreslist
    case 3 => DataserviceActivestorebyid
    case 4 => DataserviceStorelist
    case 5 => DataserviceQuery
    case 6 => DataserviceQueryall
    case 7 => DataserviceSpatialquery
    case 8 => DataserviceSpatialqueryall
    case 9 => DataserviceCreatefeature
    case 10 => DataserviceUpdatefeature
    case 11 => DataserviceDeletefeature
    case 12 => DataserviceFormlist
    case 13 => SensorserviceGps
    case 14 => AuthserviceAuthenticate
    case 15 => AuthserviceLogout
    case 16 => AuthserviceAccessToken
    case 17 => AuthserviceLoginStatus
    case 18 => NetworkserviceGetRequest
    case 19 => NetworkservicePostRequest
    case 20 => ConfigFull
    case 21 => ConfigStoreList
    case 22 => ConfigAddStore
    case 23 => ConfigRemoveStore
    case 24 => ConfigUpdateStore
    case 25 => ConfigFormList
    case 26 => ConfigAddForm
    case 27 => ConfigRemoveForm
    case 28 => ConfigUpdateForm
    case 29 => ConfigRegisterDevice
    case 30 => Notifications
    case 31 => NotificationAlert
    case 32 => NotificationInfo
    case 33 => NotificationContentAvailable
    case 34 => BackendserviceHttpUri
    case _ => BackendserviceMqttConnected
  }

  /** ordinal(): the position of the constant in declaration order. */
  function Ordinal(c: Command): (i: nat)
    ensures i < Count && CommandAt(i) == c
  {
    match c
    case NoAction => 0
    case StartAllServices => 1
    case DataserviceActivestoreslist => 2
    case DataserviceActivestorebyid => 3
    case DataserviceStorelist => 4
    case DataserviceQuery => 5
    case DataserviceQueryall => 6
    case DataserviceSpatialquery => 7
    case DataserviceSpatialqueryall => 8
    case DataserviceCreatefeature => 9
    case DataserviceUpdatefeature => 10
    case DataserviceDeletefeature => 11
    case DataserviceFormlist => 12
    case SensorserviceGps => 13
    case AuthserviceAuthenticate => 14
    case AuthserviceLogout => 15
    case AuthserviceAccessToken => 16
    case AuthserviceLoginStatus => 17
    case NetworkserviceGetRequest => 18
    case NetworkservicePostRequest => 19
    case ConfigFull => 20
    case ConfigStoreList => 21
    case ConfigAddStore => 22
    case ConfigRemoveStore => 23
    case ConfigUpdateStore => 24
    case ConfigFormList => 25
    case ConfigAddForm => 26
    case ConfigRemoveForm => 27
    case ConfigUpdateForm => 28
    case ConfigRegisterDevice => 29
    case Notifications => 30
    case NotificationAlert => 31
    case NotificationInfo => 32
    case NotificationContentAvailable => 33
    case BackendserviceHttpUri => 34
    case BackendserviceMqttConnected => 35
  }

  /** The error fromActionNumber throws: IllegalArgumentException for the number. */
  datatype CommandError = IllegalArgument(actionNumber: int)

  /** The first position at or after i whose constant is declared with n. */
  function FindFrom(n: int, i: nat): (r: Option<nat>)
    requires i <= Count
    ensures r.Some? ==> i <= r.value < Count && Value(CommandAt(r.value)) == n
    ensures r.Some? ==> forall j :: i <= j < r.value ==> Value(CommandAt(j)) != n
    ensures r.None? ==> forall j :: i <= j < Count ==> Value(CommandAt(j)) != n
    decreases Count - i
  {
    if i == Count then None
    else if Value(CommandAt(i)) == n then Some(i)
    else FindFrom(n, i + 1)
  }

  /** fromActionNumber: the first constant, in declaration order, declared
      with n; the IllegalArgumentException when no constant is. */
  function FromActionNumber(n: int): (r: Result<Command, CommandError>)
    ensures r.Success? ==> Value(r.value) == n
    ensures r.Success? ==> forall c :: Value(c) == n ==> Ordinal(r.value) <= Ordinal(c)
    ensures r.Failure? <==> forall c :: Value(c) != n
    ensures r.Failure? ==> r.error == IllegalArgument(n)
  {
    match FindFrom(n, 0)
    case Some(i) => OrdinalOfCommandAt(i); Success(CommandAt(i))
    case None => NoConstantCarries(n); Failure(IllegalArgument(n))
  }

  /** One step of the scan: a constant declared with n is the one found, any
      other is skipped. */
  lemma ScanStep(n: int, i: nat)
    requires i < Count && FindFrom(n, i) == FindFrom(n, 0)
    ensures Value(CommandAt(i)) == n ==> FromActionNumber(n) == Success(CommandAt(i))
    ensures Value(CommandAt(i)) != n ==> FindFrom(n, i + 1) == FindFrom(n, 0)
  {
  }

  /** The loop of fromActionNumber: values() scanned in declaration order,
      returning at the first constant declared with n. */
  method FindCommand(n: int) returns (r: Result<Command, CommandError>)
    ensures r == FromActionNumber(n)
  {
    var i := 0;
    while i < Count
      invariant i <= Count
      invariant FindFrom(n, i) == FindFrom(n, 0)
    {
      ScanStep(n, i);
      var v := CommandAt(i);
      if Value(v) == n {
        return Success(v);
      }
      i := i + 1;
    }
    return Failure(IllegalArgument(n));
  }

  /** A number no position carries is carried by no constant. */
  lemma NoConstantCarries(n: int)
    requires forall j :: 0 <= j < Count ==> Value(CommandAt(j)) != n
    ensures forall c :: Value(c) != n
  {
    forall c ensures Value(c) != n {
      assert CommandAt(Ordinal(c)) == c;
    }
  }

  // ---------------------------------------------------------------------------
  // The declaration table.

  /** values() lists every constant exactly once: positions and ordinals are inverse. */
  lemma OrdinalOfCommandAt(i: nat)
    requires i < Count
    ensures Ordinal(CommandAt(i)) == i
  {
  }

  /** The numbers in declaration order are the declared ones. */
  lemma DeclaredNumbers()
    ensures seq(Count, i requires 0 <= i < Count => Value(CommandAt(i)))
         == [0, 1, 100, 101, 102, 110, 111, 112, 113, 114, 115, 116, 117, 200, 300, 301, 302, 303, 400, 401, 500, 501, 502, 503, 504, 505, 506, 507, 508, 509, 600, 601, 602, 602, 701, 702]
  {
  }

  /** The constant each declared number names, the earlier one where two
      share a number: a reference table for the reverse lookup. */
  function Canonical(n: int): Option<Command>
  {
    match n
    case 0 => Some(NoAction)
    case 1 => Some(StartAllServices)
    case 100 => Some(DataserviceActivestoreslist)
    case 101 => Some(DataserviceActivestorebyid)
    case 102 => Some(DataserviceStorelist)
    case 110 => Some(DataserviceQuery)
    case 111 => Some(DataserviceQueryall)
    case 112 => Some(DataserviceSpatialquery)
    case 113 => Some(DataserviceSpatialqueryall)
    case 114 => Some(DataserviceCreatefeature)
    case 115 => Some(DataserviceUpdatefeature)
    case 116 => Some(DataserviceDeletefeature)
    case 117 => Some(DataserviceFormlist)
    case 200 => Some(SensorserviceGps)
    case 300 => Some(AuthserviceAuthenticate)
    case 301 => Some(AuthserviceLogout)
    case 302 => Some(AuthserviceAccessToken)
    case 303 => Some(AuthserviceLoginStatus)
    case 400 => Some(NetworkserviceGetRequest)
    case 401 => Some(NetworkservicePostRequest)
    case 500 => Some(ConfigFull)
    case 501 => Some(ConfigStoreList)
    case 502 => Some(ConfigAddStore)
    case 503 => Some(ConfigRemoveStore)
    case 504 => Some(ConfigUpdateStore)
    case 505 => Some(ConfigFormList)
    case 506 => Some(ConfigAddForm)
    case 507 => Some(ConfigRemoveForm)
    case 508 => Some(ConfigUpdateForm)
    case 509 => Some(ConfigRegisterDevice)
    case 600 => Some(Notifications)
    case 601 => Some(NotificationAlert)
    case 602 => Some(NotificationInfo)
    case 701 => Some(BackendserviceHttpUri)
    case 702 => Some(BackendserviceMqttConnected)
    case _ => None
  }

  /** Every constant is named by its number, except NOTIFICATION_CONTENT_AVAILABLE,
      whose number names NOTIFICATION_INFO. */
  lemma CanonicalOfValue(c: Command)
    ensures Canonical(Value(c)) == Some(if c == NotificationContentAvailable then NotificationInfo else c)
  {
  }

  /** The table names only constants carrying the number looked up. */
  lemma ValueOfCanonical(n: int)
    ensures Canonical(n).Some? ==> Value(Canonical(n).value) == n
  {
  }

  /** Distinct constants carry distinct numbers, except the two notifications
      sharing 602, where NOTIFICATION_INFO is declared first. */
  lemma SharedValueOnlyByNotifications(c: Command, d: Command)
    ensures Value(c) == Value(d) && Ordinal(c) < Ordinal(d)
            ==> c == NotificationInfo && d == NotificationContentAvailable
  {
    CanonicalOfValue(c);
    CanonicalOfValue(d);
  }

  // ---------------------------------------------------------------------------
  // The reverse lookup against value().

  /** A number the table names is looked up as the constant it names. */
  lemma TableHitFound(n: int)
    requires Canonical(n).Some?
    ensures FromActionNumber(n) == Success(Canonical(n).value)
  {
    var c := Canonical(n).value;
    ValueOfCanonical(n);
    CanonicalOfValue(c);
    assert c != NotificationContentAvailable;
    var e := FromActionNumber(n).value;
    assert Ordinal(e) <= Ordinal(c);
    SharedValueOnlyByNotifications(e, c);
    assert CommandAt(Ordinal(e)) == e && CommandAt(Ordinal(c)) == c;
  }

  /** A number the table does not name is rejected. */
  lemma TableMissRejected(n: int)
    requires Canonical(n).None?
    ensures FromActionNumber(n) == Failure(IllegalArgument(n))
  {
    forall c ensures Value(c) != n {
      CanonicalOfValue(c);
    }
  }

  /** fromActionNumber agrees with the reference table on every number: the
      constant the table names, or the exception when it names none. */
  lemma FromActionNumberMatchesTable(n: int)
    ensures FromActionNumber(n)
         == match Canonical(n)
            case Some(c) => Success(c)
            case None => Failure(IllegalArgument(n))
  {
    if Canonical(n).Some? {
      TableHitFound(n);
    } else {
      TableMissRejected(n);
    }
  }

  /** The reverse lookup of any constant's number: the constant itself, except that
      NOTIFICATION_CONTENT_AVAILABLE, sharing 602 with NOTIFICATION_INFO, is looked up as it. */
  lemma LookupOfValue(c: Command)
    ensures FromActionNumber(Value(c))
         == Success(if c == NotificationContentAvailable then NotificationInfo else c)
  {
    FromActionNumberMatchesTable(Value(c));
    CanonicalOfValue(c);
  }

  /** fromActionNumber(value(c)) == c for every constant but NOTIFICATION_CONTENT_AVAILABLE. */
  lemma ValueRoundTrip(c: Command)
    requires c != NotificationContentAvailable
    ensures FromActionNumber(Value(c)) == Success(c)
  {
    LookupOfValue(c);
  }

  /** Numbers no constant carries are rejected. */
  lemma UnknownNumbersRejected()
    ensures FromActionNumber(2) == Failure(IllegalArgument(2))
    ensures FromActionNumber(103) == Failure(IllegalArgument(103))
    ensures FromActionNumber(700) == Failure(IllegalArgument(700))
  {
    assert forall c :: Value(c) != 2 && Value(c) != 103 && Value(c) != 700;
  }
}
