/** Where the number of longitude zones drops: the table against the formula that it tabulates. */
module CprZones {
  import opened Cpr

  const PI := 3.14159265358979

  /** Sine and cosine by the first terms of their series, good to twelve decimals up to a right angle. */
  function Sin(x: real): real {
    var y := x * x;
    x * (1.0 - y / 6.0 * (1.0 - y / 20.0 * (1.0 - y / 42.0 * (1.0 - y / 72.0 * (1.0 - y / 110.0
      * (1.0 - y / 156.0 * (1.0 - y / 210.0 * (1.0 - y / 272.0))))))))
  }

  function Cos(x: real): real {
    var y := x * x;
    1.0 - y / 2.0 * (1.0 - y / 12.0 * (1.0 - y / 30.0 * (1.0 - y / 56.0 * (1.0 - y / 90.0
      * (1.0 - y / 132.0 * (1.0 - y / 182.0 * (1.0 - y / 240.0 * (1.0 - y / 306.0))))))))
  }

  /** There are n longitude zones or more where cos(lat) sin(pi / n) > sin(pi / 60) (RTCA DO-260B section
      A.1.7.2, solved for the latitude); this is the difference at a latitude in degrees. */
  function Margin(lat: real, n: real): real
    requires n > 0.0
  {
    Cos(lat * PI / 180.0) * Sin(PI / n) - Sin(PI / 60.0)
  }

  /** The latitude at which the number of zones drops below n. */
  function Boundary(n: nat): real {
    if n >= 59 then 10.47047130
    else if n >= 58 then 14.82817437
    else if n >= 57 then 18.18626357
    else if n >= 56 then 21.02939493
    else if n >= 55 then 23.54504487
    else if n >= 54 then 25.82924707
    else if n >= 53 then 27.93898710
    else if n >= 52 then 29.91135686
    else if n >= 51 then 31.77209708
    else if n >= 50 then 33.53993436
    else if n >= 49 then 35.22899598
    else if n >= 48 then 36.85025108
    else if n >= 47 then 38.41241892
    else if n >= 46 then 39.92256684
    else if n >= 45 then 41.38651832
    else if n >= 44 then 42.80914012
    else if n >= 43 then 44.19454951
    else if n >= 42 then 45.54626723
    else if n >= 41 then 46.86733252
    else if n >= 40 then 48.16039128
    else if n >= 39 then 49.42776439
    else if n >= 38 then 50.67150166
    else if n >= 37 then 51.89342469
    else if n >= 36 then 53.09516153
    else if n >= 35 then 54.27817472
    else if n >= 34 then 55.44378444
    else if n >= 33 then 56.59318756
    else if n >= 32 then 57.72747354
    else if n >= 31 then 58.84763776
    else if n >= 30 then 59.95459277
    else if n >= 29 then 61.04917774
    else if n >= 28 then 62.13216659
    else if n >= 27 then 63.20427479
    else if n >= 26 then 64.26616523
    else if n >= 25 then 65.31845310
    else if n >= 24 then 66.36171008
    else if n >= 23 then 67.39646774
    else if n >= 22 then 68.42322022
    else if n >= 21 then 69.44242631
    else if n >= 20 then 70.45451075
    else if n >= 19 then 71.45986473
    else if n >= 18 then 72.45884545
    else if n >= 17 then 73.45177442
    else if n >= 16 then 74.43893416
    else if n >= 15 then 75.42056257
    else if n >= 14 then 76.39684391
    else if n >= 13 then 77.36789461
    else if n >= 12 then 78.33374083
    else if n >= 11 then 79.29428225
    else if n >= 10 then 80.24923213
    else if n >= 9 then 81.19801349
    else if n >= 8 then 82.13956981
    else if n >= 7 then 83.07199445
    else if n >= 6 then 83.99173563
    else if n >= 5 then 84.89166191
    else if n >= 4 then 85.75541621
    else if n >= 3 then 86.53536998
    else if n >= 2 then 87.00000000
    else 90.0
  }

  lemma Drops(lat: real, n: nat)
    requires 2 <= n <= 59
    ensures CprNL(lat) >= n <==> Abs(lat) < Boundary(n)
  {
  }

  predicate OnFormula(lat: real, n: real)
    requires n > 0.0
  {
    -0.0000000001 < Margin(lat, n) < 0.0000000001
  }

  lemma Formula2()
    ensures OnFormula(87.00000000, 2.0) && OnFormula(86.53536998, 3.0)
    ensures OnFormula(85.75541621, 4.0) && OnFormula(84.89166191, 5.0)
    ensures OnFormula(83.99173563, 6.0) && OnFormula(83.07199445, 7.0)
  {
  }

  lemma Formula8()
    ensures OnFormula(82.13956981, 8.0) && OnFormula(81.19801349, 9.0)
    ensures OnFormula(80.24923213, 10.0) && OnFormula(79.29428225, 11.0)
    ensures OnFormula(78.33374083, 12.0) && OnFormula(77.36789461, 13.0)
  {
  }

  lemma Formula14()
    ensures OnFormula(76.39684391, 14.0) && OnFormula(75.42056257, 15.0)
    ensures OnFormula(74.43893416, 16.0) && OnFormula(73.45177442, 17.0)
    ensures OnFormula(72.45884545, 18.0) && OnFormula(71.45986473, 19.0)
  {
  }

  lemma Formula20()
    ensures OnFormula(70.45451075, 20.0) && OnFormula(69.44242631, 21.0)
    ensures OnFormula(68.42322022, 22.0) && OnFormula(67.39646774, 23.0)
    ensures OnFormula(66.36171008, 24.0) && OnFormula(65.31845310, 25.0)
  {
  }

  lemma Formula26()
    ensures OnFormula(64.26616523, 26.0) && OnFormula(63.20427479, 27.0)
    ensures OnFormula(62.13216659, 28.0) && OnFormula(61.04917774, 29.0)
    ensures OnFormula(59.95459277, 30.0) && OnFormula(58.84763776, 31.0)
  {
  }

  lemma Formula32()
    ensures OnFormula(57.72747354, 32.0) && OnFormula(56.59318756, 33.0)
    ensures OnFormula(55.44378444, 34.0) && OnFormula(54.27817472, 35.0)
    ensures OnFormula(53.09516153, 36.0) && OnFormula(51.89342469, 37.0)
  {
  }

  lemma Formula38()
    ensures OnFormula(50.67150166, 38.0) && OnFormula(49.42776439, 39.0)
    ensures OnFormula(48.16039128, 40.0) && OnFormula(46.86733252, 41.0)
    ensures OnFormula(45.54626723, 42.0) && OnFormula(44.19454951, 43.0)
  {
  }

  lemma Formula44()
    ensures OnFormula(42.80914012, 44.0) && OnFormula(41.38651832, 45.0)
    ensures OnFormula(39.92256684, 46.0) && OnFormula(38.41241892, 47.0)
    ensures OnFormula(36.85025108, 48.0) && OnFormula(35.22899598, 49.0)
  {
  }

  lemma Formula50()
    ensures OnFormula(33.53993436, 50.0) && OnFormula(31.77209708, 51.0)
    ensures OnFormula(29.91135686, 52.0) && OnFormula(27.93898710, 53.0)
    ensures OnFormula(25.82924707, 54.0) && OnFormula(23.54504487, 55.0)
  {
  }

  lemma Formula56()
    ensures OnFormula(21.02939493, 56.0) && OnFormula(18.18626357, 57.0)
    ensures OnFormula(14.82817437, 58.0) && OnFormula(10.47047130, 59.0)
  {
  }

  /** Every boundary of the table satisfies the formula to ten decimals. */
  lemma TableIsFormula(n: nat)
    requires 2 <= n <= 59
    ensures OnFormula(Boundary(n), n as real)
  {
    hide OnFormula;
    Formula2(); Formula8(); Formula14(); Formula20(); Formula26(); Formula32(); Formula38(); Formula44(); Formula50(); Formula56();
  }
}
