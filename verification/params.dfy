/**
 The slice of the simulator's parameter dictionary (`stardata`) that the
 modelled core reads. Angles are in degrees, speeds in km/s, distances in
 AU unless a field says otherwise, as in the dictionary itself.
 */
module Params {

  datatype StarData = StarData(
    // orbit
    eccentricity: real,
    m1: real,                  // solar masses
    m2: real,
    phase: real,
    // winds and their anisotropy
    windspeed1: real,
    windspeedPolar: real,
    termWindspeed: real,
    accelRate: real,           // log10 of the acceleration rate, per year
    openAngle: real,
    openAnglePolar: real,
    anisoVelMult: real,        // log10 of the tanh steepness
    anisoVelPower: real,
    anisoOAMult: real,
    anisoOAPower: real,
    spinInc: real,
    spinOmega: real,
    // dust production window
    turnOn: real,
    turnOff: real,
    gradualTurn: real,
    nucDist: real,
    // companion photodissociation
    compReduction: real,
    compOpen: real,
    // brightness variation
    orbAmp: real,
    orbMin: real,
    orbSd: real,
    azAmp: real,
    azMin: real,
    azSd: real,
    // image post-processing
    histmax: real,
    lumPower: real)
}
