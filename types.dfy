/**
 * The entities of the parking engine (types.ts): slots, registered cars,
 * parking records and payments.
 *
 * Timestamps, which the source keeps as ISO-8601 strings, are integer
 * milliseconds since the epoch here. Amounts and durations are integers.
 */
module Types {

  /** An optional value; `field?: T` of a TypeScript interface. */
  datatype Option<T> = None | Some(value: T)
  {
    function GetOr(default: T): T
    {
      if Some? then value else default
    }
  }

  /** A slot is either free or taken; there is no third state. */
  datatype SlotStatus = Available | Occupied

  datatype ParkingSlot = ParkingSlot(id: string, slotNumber: string, status: SlotStatus)

  datatype Car = Car(plateNumber: string, driverName: string, phoneNumber: string)

  /** The `'Active' | 'Completed'` union of a record's status. */
  datatype RecordStatus = Active | Completed

  /**
   * One parking session. It names its slot by slot number, not by slot id.
   * `exitTime`, `duration` (whole hours) and `amountPaid` are optional:
   * they are filled in at checkout.
   */
  datatype ParkingRecord = ParkingRecord(
    id: string,
    plateNumber: string,
    slotNumber: string,
    entryTime: int,
    exitTime: Option<int>,
    duration: Option<int>,
    amountPaid: Option<int>,
    status: RecordStatus)

  /** A payment names the record it settles by the record's id. */
  datatype Payment = Payment(
    id: string,
    recordId: string,
    plateNumber: string,
    amountPaid: int,
    paymentDate: int)
}
