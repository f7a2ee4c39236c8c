/** The flags of a comparison, in the low byte of its id: the operator is in the three low bits. */
module SonarFlags {
  const SONAR_LENGTH: nat := 8
  const SONAR_SIGNED: nat := 16
  const SONAR_STRING: nat := 32
  const SONAR_CONST1: nat := 64
  const SONAR_CONST2: nat := 128
}
