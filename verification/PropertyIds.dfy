/** Property identifiers (section 23.5 of ASHRAE 135-2020) and their numbers, as two tables. */
module PropertyIds {
  import opened Machine

  datatype PropertyIdentifier =
    | ObjectIdentifier | ObjectName | ObjectType | Description | ProfileName | PresentValue | StatusFlags
    | EventState | Reliability | OutOfService | Units | MinPresentValue | MaxPresentValue | CovIncrement
    | TimeDelay | NotificationClass | HighLimit | LowLimit | Deadband | LimitEnable | EventEnable
    | AckedTransitions | PriorityArray | RelinquishDefault | SystemStatus | VendorName | LocalDate | LocalTime
    | UtcOffset | DaylightSavingsStatus | VendorIdentifier | ModelName | FirmwareRevision
    | ApplicationSoftwareVersion | ProtocolVersion | ProtocolRevision | ProtocolServicesSupported
    | ProtocolObjectTypesSupported | ObjectList | MaxApduLengthAccepted | SegmentationSupported | ApduTimeout
    | NumberOfApduRetries | MaxMaster | MaxInfoFrames | DatabaseRevision | NumberOfStates | StateText | Enable
    | LogInterval | BufferSize | RecordCount | TotalRecordCount | StartTime | StopTime | StopWhenFull
    | LogDeviceObjectProperty | WeeklySchedule | ScheduleDefault | EffectivePeriod
    | ListOfObjectPropertyReferences | ExceptionSchedule | PropertyList | All | Required | Optional
    | Unknown(code: U32)

  function PropertyFrom(v: U32): PropertyIdentifier {
    match v
    case 75 => ObjectIdentifier
    case 77 => ObjectName
    case 79 => ObjectType
    case 28 => Description
    case 168 => ProfileName
    case 85 => PresentValue
    case 111 => StatusFlags
    case 36 => EventState
    case 103 => Reliability
    case 81 => OutOfService
    case 117 => Units
    case 69 => MinPresentValue
    case 65 => MaxPresentValue
    case 22 => CovIncrement
    case 113 => TimeDelay
    case 17 => NotificationClass
    case 45 => HighLimit
    case 59 => LowLimit
    case 25 => Deadband
    case 52 => LimitEnable
    case 35 => EventEnable
    case 0 => AckedTransitions
    case 87 => PriorityArray
    case 104 => RelinquishDefault
    case 74 => NumberOfStates
    case 110 => StateText
    case 133 => Enable
    case 56 => LocalDate
    case 57 => LocalTime
    case 119 => UtcOffset
    case 24 => DaylightSavingsStatus
    case 132 => LogInterval
    case 127 => BufferSize
    case 141 => RecordCount
    case 145 => TotalRecordCount
    case 142 => StartTime
    case 143 => StopTime
    case 144 => StopWhenFull
    case 131 => LogDeviceObjectProperty
    case 123 => WeeklySchedule
    case 174 => ScheduleDefault
    case 32 => EffectivePeriod
    case 54 => ListOfObjectPropertyReferences
    case 38 => ExceptionSchedule
    case 112 => SystemStatus
    case 121 => VendorName
    case 120 => VendorIdentifier
    case 70 => ModelName
    case 44 => FirmwareRevision
    case 12 => ApplicationSoftwareVersion
    case 98 => ProtocolVersion
    case 139 => ProtocolRevision
    case 97 => ProtocolServicesSupported
    case 96 => ProtocolObjectTypesSupported
    case 76 => ObjectList
    case 62 => MaxApduLengthAccepted
    case 107 => SegmentationSupported
    case 11 => ApduTimeout
    case 73 => NumberOfApduRetries
    case 64 => MaxMaster
    case 63 => MaxInfoFrames
    case 155 => DatabaseRevision
    case 371 => PropertyList
    case 8 => All
    case 105 => Required
    case 80 => Optional
    case _ => Unknown(v)
  }

  function PropertyCode(p: PropertyIdentifier): U32 {
    match p
    case ObjectIdentifier => 75
    case ObjectName => 77
    case ObjectType => 79
    case Description => 28
    case ProfileName => 168
    case PresentValue => 85
    case StatusFlags => 111
    case EventState => 36
    case Reliability => 103
    case OutOfService => 81
    case Units => 117
    case MinPresentValue => 69
    case MaxPresentValue => 65
    case CovIncrement => 22
    case TimeDelay => 113
    case NotificationClass => 17
    case HighLimit => 45
    case LowLimit => 59
    case Deadband => 25
    case LimitEnable => 52
    case EventEnable => 35
    case AckedTransitions => 0
    case PriorityArray => 87
    case RelinquishDefault => 104
    case NumberOfStates => 74
    case StateText => 110
    case Enable => 133
    case LocalDate => 56
    case LocalTime => 57
    case UtcOffset => 119
    case DaylightSavingsStatus => 24
    case LogInterval => 132
    case BufferSize => 127
    case RecordCount => 141
    case TotalRecordCount => 145
    case StartTime => 142
    case StopTime => 143
    case StopWhenFull => 144
    case LogDeviceObjectProperty => 131
    case WeeklySchedule => 123
    case ScheduleDefault => 174
    case EffectivePeriod => 32
    case ListOfObjectPropertyReferences => 54
    case ExceptionSchedule => 38
    case SystemStatus => 112
    case VendorName => 121
    case VendorIdentifier => 120
    case ModelName => 70
    case FirmwareRevision => 44
    case ApplicationSoftwareVersion => 12
    case ProtocolVersion => 98
    case ProtocolRevision => 139
    case ProtocolServicesSupported => 97
    case ProtocolObjectTypesSupported => 96
    case ObjectList => 76
    case MaxApduLengthAccepted => 62
    case SegmentationSupported => 107
    case ApduTimeout => 11
    case NumberOfApduRetries => 73
    case MaxMaster => 64
    case MaxInfoFrames => 63
    case DatabaseRevision => 155
    case PropertyList => 371
    case All => 8
    case Required => 105
    case Optional => 80
    case Unknown(v) => v
  }

  /** An identifier that the reading table yields: a named one, or an unknown one without a name. */
  predicate Canonical(p: PropertyIdentifier) {
    p.Unknown? ==> PropertyFrom(p.code).Unknown?
  }

  lemma NumberRoundTrip(v: U32)
    ensures PropertyCode(PropertyFrom(v)) == v
  {
    var p := PropertyFrom(v);
    match p {
      case ObjectIdentifier => assert v == 75;
      case ObjectName => assert v == 77;
      case ObjectType => assert v == 79;
      case Description => assert v == 28;
      case ProfileName => assert v == 168;
      case PresentValue => assert v == 85;
      case StatusFlags => assert v == 111;
      case EventState => assert v == 36;
      case Reliability => assert v == 103;
      case OutOfService => assert v == 81;
      case Units => assert v == 117;
      case MinPresentValue => assert v == 69;
      case MaxPresentValue => assert v == 65;
      case CovIncrement => assert v == 22;
      case TimeDelay => assert v == 113;
      case NotificationClass => assert v == 17;
      case HighLimit => assert v == 45;
      case LowLimit => assert v == 59;
      case Deadband => assert v == 25;
      case LimitEnable => assert v == 52;
      case EventEnable => assert v == 35;
      case AckedTransitions => assert v == 0;
      case PriorityArray => assert v == 87;
      case RelinquishDefault => assert v == 104;
      case NumberOfStates => assert v == 74;
      case StateText => assert v == 110;
      case Enable => assert v == 133;
      case LocalDate => assert v == 56;
      case LocalTime => assert v == 57;
      case UtcOffset => assert v == 119;
      case DaylightSavingsStatus => assert v == 24;
      case LogInterval => assert v == 132;
      case BufferSize => assert v == 127;
      case RecordCount => assert v == 141;
      case TotalRecordCount => assert v == 145;
      case StartTime => assert v == 142;
      case StopTime => assert v == 143;
      case StopWhenFull => assert v == 144;
      case LogDeviceObjectProperty => assert v == 131;
      case WeeklySchedule => assert v == 123;
      case ScheduleDefault => assert v == 174;
      case EffectivePeriod => assert v == 32;
      case ListOfObjectPropertyReferences => assert v == 54;
      case ExceptionSchedule => assert v == 38;
      case SystemStatus => assert v == 112;
      case VendorName => assert v == 121;
      case VendorIdentifier => assert v == 120;
      case ModelName => assert v == 70;
      case FirmwareRevision => assert v == 44;
      case ApplicationSoftwareVersion => assert v == 12;
      case ProtocolVersion => assert v == 98;
      case ProtocolRevision => assert v == 139;
      case ProtocolServicesSupported => assert v == 97;
      case ProtocolObjectTypesSupported => assert v == 96;
      case ObjectList => assert v == 76;
      case MaxApduLengthAccepted => assert v == 62;
      case SegmentationSupported => assert v == 107;
      case ApduTimeout => assert v == 11;
      case NumberOfApduRetries => assert v == 73;
      case MaxMaster => assert v == 64;
      case MaxInfoFrames => assert v == 63;
      case DatabaseRevision => assert v == 155;
      case PropertyList => assert v == 371;
      case All => assert v == 8;
      case Required => assert v == 105;
      case Optional => assert v == 80;
      case Unknown(_) =>
    }
  }

  // Parts of the reading table, eleven rows each.

  lemma ReadingPart1(v: U32)
    ensures v == 75 ==> PropertyFrom(v) == ObjectIdentifier
    ensures v == 77 ==> PropertyFrom(v) == ObjectName
    ensures v == 79 ==> PropertyFrom(v) == ObjectType
    ensures v == 28 ==> PropertyFrom(v) == Description
    ensures v == 168 ==> PropertyFrom(v) == ProfileName
    ensures v == 85 ==> PropertyFrom(v) == PresentValue
    ensures v == 111 ==> PropertyFrom(v) == StatusFlags
    ensures v == 36 ==> PropertyFrom(v) == EventState
    ensures v == 103 ==> PropertyFrom(v) == Reliability
    ensures v == 81 ==> PropertyFrom(v) == OutOfService
    ensures v == 117 ==> PropertyFrom(v) == Units
  {
  }

  lemma ReadingPart2(v: U32)
    ensures v == 69 ==> PropertyFrom(v) == MinPresentValue
    ensures v == 65 ==> PropertyFrom(v) == MaxPresentValue
    ensures v == 22 ==> PropertyFrom(v) == CovIncrement
    ensures v == 113 ==> PropertyFrom(v) == TimeDelay
    ensures v == 17 ==> PropertyFrom(v) == NotificationClass
    ensures v == 45 ==> PropertyFrom(v) == HighLimit
    ensures v == 59 ==> PropertyFrom(v) == LowLimit
    ensures v == 25 ==> PropertyFrom(v) == Deadband
    ensures v == 52 ==> PropertyFrom(v) == LimitEnable
    ensures v == 35 ==> PropertyFrom(v) == EventEnable
    ensures v == 0 ==> PropertyFrom(v) == AckedTransitions
  {
  }

  lemma ReadingPart3(v: U32)
    ensures v == 87 ==> PropertyFrom(v) == PriorityArray
    ensures v == 104 ==> PropertyFrom(v) == RelinquishDefault
    ensures v == 74 ==> PropertyFrom(v) == NumberOfStates
    ensures v == 110 ==> PropertyFrom(v) == StateText
    ensures v == 133 ==> PropertyFrom(v) == Enable
    ensures v == 56 ==> PropertyFrom(v) == LocalDate
    ensures v == 57 ==> PropertyFrom(v) == LocalTime
    ensures v == 119 ==> PropertyFrom(v) == UtcOffset
    ensures v == 24 ==> PropertyFrom(v) == DaylightSavingsStatus
    ensures v == 132 ==> PropertyFrom(v) == LogInterval
    ensures v == 127 ==> PropertyFrom(v) == BufferSize
  {
  }

  lemma ReadingPart4(v: U32)
    ensures v == 141 ==> PropertyFrom(v) == RecordCount
    ensures v == 145 ==> PropertyFrom(v) == TotalRecordCount
    ensures v == 142 ==> PropertyFrom(v) == StartTime
    ensures v == 143 ==> PropertyFrom(v) == StopTime
    ensures v == 144 ==> PropertyFrom(v) == StopWhenFull
    ensures v == 131 ==> PropertyFrom(v) == LogDeviceObjectProperty
    ensures v == 123 ==> PropertyFrom(v) == WeeklySchedule
    ensures v == 174 ==> PropertyFrom(v) == ScheduleDefault
    ensures v == 32 ==> PropertyFrom(v) == EffectivePeriod
    ensures v == 54 ==> PropertyFrom(v) == ListOfObjectPropertyReferences
    ensures v == 38 ==> PropertyFrom(v) == ExceptionSchedule
  {
  }

  lemma ReadingPart5(v: U32)
    ensures v == 112 ==> PropertyFrom(v) == SystemStatus
    ensures v == 121 ==> PropertyFrom(v) == VendorName
    ensures v == 120 ==> PropertyFrom(v) == VendorIdentifier
    ensures v == 70 ==> PropertyFrom(v) == ModelName
    ensures v == 44 ==> PropertyFrom(v) == FirmwareRevision
    ensures v == 12 ==> PropertyFrom(v) == ApplicationSoftwareVersion
    ensures v == 98 ==> PropertyFrom(v) == ProtocolVersion
    ensures v == 139 ==> PropertyFrom(v) == ProtocolRevision
    ensures v == 97 ==> PropertyFrom(v) == ProtocolServicesSupported
    ensures v == 96 ==> PropertyFrom(v) == ProtocolObjectTypesSupported
    ensures v == 76 ==> PropertyFrom(v) == ObjectList
  {
  }

  lemma ReadingPart6(v: U32)
    ensures v == 62 ==> PropertyFrom(v) == MaxApduLengthAccepted
    ensures v == 107 ==> PropertyFrom(v) == SegmentationSupported
    ensures v == 11 ==> PropertyFrom(v) == ApduTimeout
    ensures v == 73 ==> PropertyFrom(v) == NumberOfApduRetries
    ensures v == 64 ==> PropertyFrom(v) == MaxMaster
    ensures v == 63 ==> PropertyFrom(v) == MaxInfoFrames
    ensures v == 155 ==> PropertyFrom(v) == DatabaseRevision
    ensures v == 371 ==> PropertyFrom(v) == PropertyList
    ensures v == 8 ==> PropertyFrom(v) == All
    ensures v == 105 ==> PropertyFrom(v) == Required
    ensures v == 80 ==> PropertyFrom(v) == Optional
  {
  }

  lemma NamedRoundTrip(p: PropertyIdentifier)
    requires !p.Unknown?
    ensures PropertyFrom(PropertyCode(p)) == p
  {
    hide PropertyFrom;
    match p {
      case ObjectIdentifier => ReadingPart1(PropertyCode(p));
      case ObjectName => ReadingPart1(PropertyCode(p));
      case ObjectType => ReadingPart1(PropertyCode(p));
      case Description => ReadingPart1(PropertyCode(p));
      case ProfileName => ReadingPart1(PropertyCode(p));
      case PresentValue => ReadingPart1(PropertyCode(p));
      case StatusFlags => ReadingPart1(PropertyCode(p));
      case EventState => ReadingPart1(PropertyCode(p));
      case Reliability => ReadingPart1(PropertyCode(p));
      case OutOfService => ReadingPart1(PropertyCode(p));
      case Units => ReadingPart1(PropertyCode(p));
      case MinPresentValue => ReadingPart2(PropertyCode(p));
      case MaxPresentValue => ReadingPart2(PropertyCode(p));
      case CovIncrement => ReadingPart2(PropertyCode(p));
      case TimeDelay => ReadingPart2(PropertyCode(p));
      case NotificationClass => ReadingPart2(PropertyCode(p));
      case HighLimit => ReadingPart2(PropertyCode(p));
      case LowLimit => ReadingPart2(PropertyCode(p));
      case Deadband => ReadingPart2(PropertyCode(p));
      case LimitEnable => ReadingPart2(PropertyCode(p));
      case EventEnable => ReadingPart2(PropertyCode(p));
      case AckedTransitions => ReadingPart2(PropertyCode(p));
      case PriorityArray => ReadingPart3(PropertyCode(p));
      case RelinquishDefault => ReadingPart3(PropertyCode(p));
      case NumberOfStates => ReadingPart3(PropertyCode(p));
      case StateText => ReadingPart3(PropertyCode(p));
      case Enable => ReadingPart3(PropertyCode(p));
      case LocalDate => ReadingPart3(PropertyCode(p));
      case LocalTime => ReadingPart3(PropertyCode(p));
      case UtcOffset => ReadingPart3(PropertyCode(p));
      case DaylightSavingsStatus => ReadingPart3(PropertyCode(p));
      case LogInterval => ReadingPart3(PropertyCode(p));
      case BufferSize => ReadingPart3(PropertyCode(p));
      case RecordCount => ReadingPart4(PropertyCode(p));
      case TotalRecordCount => ReadingPart4(PropertyCode(p));
      case StartTime => ReadingPart4(PropertyCode(p));
      case StopTime => ReadingPart4(PropertyCode(p));
      case StopWhenFull => ReadingPart4(PropertyCode(p));
      case LogDeviceObjectProperty => ReadingPart4(PropertyCode(p));
      case WeeklySchedule => ReadingPart4(PropertyCode(p));
      case ScheduleDefault => ReadingPart4(PropertyCode(p));
      case EffectivePeriod => ReadingPart4(PropertyCode(p));
      case ListOfObjectPropertyReferences => ReadingPart4(PropertyCode(p));
      case ExceptionSchedule => ReadingPart4(PropertyCode(p));
      case SystemStatus => ReadingPart5(PropertyCode(p));
      case VendorName => ReadingPart5(PropertyCode(p));
      case VendorIdentifier => ReadingPart5(PropertyCode(p));
      case ModelName => ReadingPart5(PropertyCode(p));
      case FirmwareRevision => ReadingPart5(PropertyCode(p));
      case ApplicationSoftwareVersion => ReadingPart5(PropertyCode(p));
      case ProtocolVersion => ReadingPart5(PropertyCode(p));
      case ProtocolRevision => ReadingPart5(PropertyCode(p));
      case ProtocolServicesSupported => ReadingPart5(PropertyCode(p));
      case ProtocolObjectTypesSupported => ReadingPart5(PropertyCode(p));
      case ObjectList => ReadingPart5(PropertyCode(p));
      case MaxApduLengthAccepted => ReadingPart6(PropertyCode(p));
      case SegmentationSupported => ReadingPart6(PropertyCode(p));
      case ApduTimeout => ReadingPart6(PropertyCode(p));
      case NumberOfApduRetries => ReadingPart6(PropertyCode(p));
      case MaxMaster => ReadingPart6(PropertyCode(p));
      case MaxInfoFrames => ReadingPart6(PropertyCode(p));
      case DatabaseRevision => ReadingPart6(PropertyCode(p));
      case PropertyList => ReadingPart6(PropertyCode(p));
      case All => ReadingPart6(PropertyCode(p));
      case Required => ReadingPart6(PropertyCode(p));
      case Optional => ReadingPart6(PropertyCode(p));
    }
  }

  lemma UnknownRoundTrip(v: U32)
    ensures PropertyCode(Unknown(v)) == v
    ensures PropertyFrom(v).Unknown? ==> PropertyFrom(v) == Unknown(v)
  {
  }

  /** The two tables are inverse to each other on every number, and on exactly the canonical identifiers. */
  lemma TablesAgree(p: PropertyIdentifier)
    ensures PropertyFrom(PropertyCode(p)) == p <==> Canonical(p)
  {
    hide PropertyFrom, PropertyCode;
    if p.Unknown? {
      UnknownRoundTrip(p.code);
    } else {
      NamedRoundTrip(p);
    }
  }
}
