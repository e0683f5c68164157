/** The plugin side: a normalised vehicle state with one bit per signal in `capable`
    ("this vehicle can ever provide it") and in `valid` ("the field is a current measurement"). */
module Vehicle {
  import opened BitMasks

  type Signal = i: nat | i < 23

  const SIG_SPEED: Signal := 0
  const SIG_RPM: Signal := 1
  const SIG_GEAR: Signal := 2
  const SIG_POWER_STATE: Signal := 3
  const SIG_MOTOR_POWER: Signal := 4
  const SIG_PACK_VOLTAGE: Signal := 5
  const SIG_PACK_CURRENT: Signal := 6
  const SIG_SOC: Signal := 7
  const SIG_SOH: Signal := 8
  const SIG_RANGE: Signal := 9
  const SIG_CONSUMPTION: Signal := 10
  const SIG_CHARGING_STATE: Signal := 11
  const SIG_ODOMETER: Signal := 12
  const SIG_AMBIENT_TEMP: Signal := 13
  const SIG_CABIN_TEMP: Signal := 14
  const SIG_COOLANT_TEMP: Signal := 15
  const SIG_FUEL_LEVEL: Signal := 16
  const SIG_AUX_BATTERY: Signal := 17
  const SIG_ECO_SCORE: Signal := 18
  const SIG_SPEED_LIMIT: Signal := 19
  const SIG_COLLISION_RISK: Signal := 20
  const SIG_LANE_STATE: Signal := 21
  const SIG_LEAD_GAP: Signal := 22
  const SIG_COUNT := 23
  const LAMP_COUNT := 20

  const POWER_ON := 2
  const POWER_READY := 3
  const DRIVETRAIN_ICE := 1

  datatype VehicleState = VehicleState(
    capable: Mask, valid: Mask,
    drivetrain: int, source: int, vehicleId: Mask,
    speedKmh: real, rpm: real, gear: int, powerState: int,
    motorPowerKw: real, packVoltageV: real, packCurrentA: real,
    socPct: real, sohPct: real, rangeKm: real, consumptionWhKm: real, chargingState: int,
    odometerKm: real, ambientC: real, cabinC: real, coolantC: real, fuelPct: real, auxBatteryV: real,
    lamps: Mask,
    ecoScore: int, speedLimitKmh: int, collisionRisk: int, laneState: nat, leadGapM: real)

  /** The all-zero state, as memset leaves it. */
  const BLANK := VehicleState(0, 0, 0, 0, 0, 0.0, 0.0, 0, 0, 0.0, 0.0, 0.0, 0.0, 0.0, 0.0, 0.0, 0,
                              0.0, 0.0, 0.0, 0.0, 0.0, 0.0, 0, 0, 0, 0, 0, 0.0)
}
