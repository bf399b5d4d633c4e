/**
 * A front-desk session written against the contracts of `ParkingApp` only:
 * register a car, add a slot, park, and check out ninety minutes later.
 */
module Scenario {

  import opened Types
  import opened Billing
  import opened Engine

  method NinetyMinuteStay(rate: nat, t0: int)
  {
    var app := new ParkingApp(rate, [], [], [], []);
    app.AddCar("RAC123A", "Jane", "");
    assert app.cars == [Car("RAC123A", "Jane", "")];

    app.AddSlot("s1", "P-01");
    assert app.slots == [ParkingSlot("s1", "P-01", Available)];
    assert FirstAvailableSlot(app.slots) == Some(0) && UniqueSlotIds(app.slots);

    app.AssignParking("RAC123A", "r1", t0);
    var entered := ParkingRecord("r1", "RAC123A", "P-01", t0, None, None, None, Active);
    assert app.records == [entered];
    assert app.slots == [ParkingSlot("s1", "P-01", Occupied)];

    // Ninety minutes later the stay is billed as two hours.
    var exitTime := t0 + 90 * 60 * 1000;
    var fee := CalculateFee(t0, exitTime, rate);
    assert fee.hours == 2;
    assert FindRecord(app.records, "r1") == Some(0);
    app.ExitParking("r1", "p1", exitTime);
    assert app.slots == [ParkingSlot("s1", "P-01", Available)];
    assert app.records == [CheckOut(entered, exitTime, rate)];
    assert app.records[0].status == Completed && app.records[0].duration == Some(2);
    assert app.payments == [Payment("p1", "r1", "RAC123A", 2 * rate, exitTime)];
  }
}
