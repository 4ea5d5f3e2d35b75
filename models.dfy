/**
 * The parts of the ORM entities that the export helpers read: the role,
 * payment-type and status enumerations (stored as their lower-case names)
 * and the Transaction -> Officer -> User chain behind `officer_name`.
 */
module Models {
  import opened PyValues

  datatype Role = Admin | Coordinator | FieldOfficer

  /** The string stored in `users.role`. */
  function RoleName(r: Role): string {
    match r
    case Admin => "admin"
    case Coordinator => "coordinator"
    case FieldOfficer => "field_officer"
  }

  datatype PaymentType = Cash | Installment | Transfer

  function PaymentTypeName(p: PaymentType): string {
    match p
    case Cash => "cash"
    case Installment => "installment"
    case Transfer => "transfer"
  }

  datatype Status = Pending | Completed | Failed

  function StatusName(s: Status): string {
    match s
    case Pending => "pending"
    case Completed => "completed"
    case Failed => "failed"
  }

  /** Each enumeration is stored under a distinct name, so comparing names compares members. */
  lemma EnumNamesDistinct()
    ensures forall a: Role, b: Role :: RoleName(a) == RoleName(b) ==> a == b
    ensures forall a: PaymentType, b: PaymentType :: PaymentTypeName(a) == PaymentTypeName(b) ==> a == b
    ensures forall a: Status, b: Status :: StatusName(a) == StatusName(b) ==> a == b
  {
  }

  datatype User = User(username: string, role: Role)

  /** `Officer.user` is the backref of `User.officer`; it may be unset. */
  datatype Officer = Officer(user: Option<User>)

  /**
   * A row of `transactions`. `payment_type` and `status` are nullable enum
   * columns, `created_at` a nullable datetime; `total` is NUMERIC(10, 2) NOT NULL.
   */
  datatype Transaction = Transaction(
    id: int,
    idpel: string,
    periode: Date,
    total: Decimal,
    paymentType: Option<PaymentType>,
    status: Option<Status>,
    officer: Option<Officer>,
    createdAt: Option<DateTime>)

  /** What reading a nullable enum column gives: its name, or None. */
  function EnumValue<E>(e: Option<E>, name: E -> string): Value {
    match e
    case Some(x) => StrV(name(x))
    case None => NoneV
  }

  /** What reading a nullable datetime column gives. */
  function DateTimeValue(dt: Option<DateTime>): Value {
    match dt
    case Some(x) => DateTimeV(x)
    case None => NoneV
  }
}
