/** The configuration message of a fan: the fields shared by all kinds of fan. */
module FanMessage {
  import opened Basics

  datatype FanMsg = FanMsg(name: string, sensor: string, tempToRpm: string, rpmToPwm: string,
                           startPwm: Pwm, interval: nat, ignore: bool)
}
