/** The combinatorial tables shared by encoder and decoder, and why they may be trusted. */
module CnkTables {
  // Every entry of the first table is a binomial, and the other two describe a truncated binary code with room for all
  // ranks. There is one function for each table row, numbered by how many elements are chosen.

  import opened BitStrings

  /** The number of ways to choose `k` of `n`. */
  function Choose(n: nat, k: nat): nat
  {
    if k == 0 then 1 else if n == 0 then 0 else Choose(n - 1, k) + Choose(n - 1, k - 1)
  }

  /** `1 << n`. */
  function Power(n: nat): nat {
    match n
    case 0 => 1 case 1 => 2 case 2 => 4 case 3 => 8 case 4 => 16 case 5 => 32 case 6 => 64 case 7 => 128
    case 8 => 256 case 9 => 512 case 10 => 1024 case 11 => 2048 case 12 => 4096 case 13 => 8192 case 14 => 16384
    case 15 => 32768 case 16 => 65536 case 17 => 131072 case 18 => 262144 case 19 => 524288 case 20 => 1048576
    case 21 => 2097152 case 22 => 4194304 case 23 => 8388608 case 24 => 16777216 case 25 => 33554432
    case 26 => 67108864 case 27 => 134217728 case 28 => 268435456 case 29 => 536870912 case _ => 1073741824
  }

  function Cnk1(n: nat): nat {
    match n
    case 0 => 0 case 1 => 1 case 2 => 2 case 3 => 3 case 4 => 4 case 5 => 5 case 6 => 6 case 7 => 7 case 8 => 8
    case 9 => 9 case 10 => 10 case 11 => 11 case 12 => 12 case 13 => 13 case 14 => 14 case 15 => 15 case 16 => 16
    case 17 => 17 case 18 => 18 case 19 => 19 case 20 => 20 case 21 => 21 case 22 => 22 case 23 => 23 case 24 => 24
    case 25 => 25 case 26 => 26 case 27 => 27 case 28 => 28 case 29 => 29 case 30 => 30 case _ => 31
  }

  function Cnk2(n: nat): nat {
    match n
    case 0 => 0 case 1 => 0 case 2 => 1 case 3 => 3 case 4 => 6 case 5 => 10 case 6 => 15 case 7 => 21 case 8 => 28
    case 9 => 36 case 10 => 45 case 11 => 55 case 12 => 66 case 13 => 78 case 14 => 91 case 15 => 105 case 16 => 120
    case 17 => 136 case 18 => 153 case 19 => 171 case 20 => 190 case 21 => 210 case 22 => 231 case 23 => 253
    case 24 => 276 case 25 => 300 case 26 => 325 case 27 => 351 case 28 => 378 case 29 => 406 case 30 => 435 case _ => 465
  }

  function Cnk3(n: nat): nat {
    match n
    case 0 => 0 case 1 => 0 case 2 => 0 case 3 => 1 case 4 => 4 case 5 => 10 case 6 => 20 case 7 => 35 case 8 => 56
    case 9 => 84 case 10 => 120 case 11 => 165 case 12 => 220 case 13 => 286 case 14 => 364 case 15 => 455
    case 16 => 560 case 17 => 680 case 18 => 816 case 19 => 969 case 20 => 1140 case 21 => 1330 case 22 => 1540
    case 23 => 1771 case 24 => 2024 case 25 => 2300 case 26 => 2600 case 27 => 2925 case 28 => 3276 case 29 => 3654
    case 30 => 4060 case _ => 4495
  }

  function Cnk4(n: nat): nat {
    match n
    case 0 => 0 case 1 => 0 case 2 => 0 case 3 => 0 case 4 => 1 case 5 => 5 case 6 => 15 case 7 => 35 case 8 => 70
    case 9 => 126 case 10 => 210 case 11 => 330 case 12 => 495 case 13 => 715 case 14 => 1001 case 15 => 1365
    case 16 => 1820 case 17 => 2380 case 18 => 3060 case 19 => 3876 case 20 => 4845 case 21 => 5985 case 22 => 7315
    case 23 => 8855 case 24 => 10626 case 25 => 12650 case 26 => 14950 case 27 => 17550 case 28 => 20475
    case 29 => 23751 case 30 => 27405 case _ => 31465
  }

  function Cnk5(n: nat): nat {
    match n
    case 0 => 0 case 1 => 0 case 2 => 0 case 3 => 0 case 4 => 0 case 5 => 1 case 6 => 6 case 7 => 21 case 8 => 56
    case 9 => 126 case 10 => 252 case 11 => 462 case 12 => 792 case 13 => 1287 case 14 => 2002 case 15 => 3003
    case 16 => 4368 case 17 => 6188 case 18 => 8568 case 19 => 11628 case 20 => 15504 case 21 => 20349
    case 22 => 26334 case 23 => 33649 case 24 => 42504 case 25 => 53130 case 26 => 65780 case 27 => 80730
    case 28 => 98280 case 29 => 118755 case 30 => 142506 case _ => 169911
  }

  function Cnk6(n: nat): nat {
    match n
    case 0 => 0 case 1 => 0 case 2 => 0 case 3 => 0 case 4 => 0 case 5 => 0 case 6 => 1 case 7 => 7 case 8 => 28
    case 9 => 84 case 10 => 210 case 11 => 462 case 12 => 924 case 13 => 1716 case 14 => 3003 case 15 => 5005
    case 16 => 8008 case 17 => 12376 case 18 => 18564 case 19 => 27132 case 20 => 38760 case 21 => 54264
    case 22 => 74613 case 23 => 100947 case 24 => 134596 case 25 => 177100 case 26 => 230230 case 27 => 296010
    case 28 => 376740 case 29 => 475020 case 30 => 593775 case _ => 736281
  }

  function Cnk7(n: nat): nat {
    match n
    case 0 => 0 case 1 => 0 case 2 => 0 case 3 => 0 case 4 => 0 case 5 => 0 case 6 => 0 case 7 => 1 case 8 => 8
    case 9 => 36 case 10 => 120 case 11 => 330 case 12 => 792 case 13 => 1716 case 14 => 3432 case 15 => 6435
    case 16 => 11440 case 17 => 19448 case 18 => 31824 case 19 => 50388 case 20 => 77520 case 21 => 116280
    case 22 => 170544 case 23 => 245157 case 24 => 346104 case 25 => 480700 case 26 => 657800 case 27 => 888030
    case 28 => 1184040 case 29 => 1560780 case 30 => 2035800 case _ => 2629575
  }

  function Cnk8(n: nat): nat {
    match n
    case 0 => 0 case 1 => 0 case 2 => 0 case 3 => 0 case 4 => 0 case 5 => 0 case 6 => 0 case 7 => 0 case 8 => 1
    case 9 => 9 case 10 => 45 case 11 => 165 case 12 => 495 case 13 => 1287 case 14 => 3003 case 15 => 6435
    case 16 => 12870 case 17 => 24310 case 18 => 43758 case 19 => 75582 case 20 => 125970 case 21 => 203490
    case 22 => 319770 case 23 => 490314 case 24 => 735471 case 25 => 1081575 case 26 => 1562275 case 27 => 2220075
    case 28 => 3108105 case 29 => 4292145 case 30 => 5852925 case _ => 7888725
  }

  function Cnk9(n: nat): nat {
    match n
    case 0 => 0 case 1 => 0 case 2 => 0 case 3 => 0 case 4 => 0 case 5 => 0 case 6 => 0 case 7 => 0 case 8 => 0
    case 9 => 1 case 10 => 10 case 11 => 55 case 12 => 220 case 13 => 715 case 14 => 2002 case 15 => 5005
    case 16 => 11440 case 17 => 24310 case 18 => 48620 case 19 => 92378 case 20 => 167960 case 21 => 293930
    case 22 => 497420 case 23 => 817190 case 24 => 1307504 case 25 => 2042975 case 26 => 3124550 case 27 => 4686825
    case 28 => 6906900 case 29 => 10015005 case 30 => 14307150 case _ => 20160075
  }

  function Cnk10(n: nat): nat {
    match n
    case 0 => 0 case 1 => 0 case 2 => 0 case 3 => 0 case 4 => 0 case 5 => 0 case 6 => 0 case 7 => 0 case 8 => 0
    case 9 => 0 case 10 => 1 case 11 => 11 case 12 => 66 case 13 => 286 case 14 => 1001 case 15 => 3003
    case 16 => 8008 case 17 => 19448 case 18 => 43758 case 19 => 92378 case 20 => 184756 case 21 => 352716
    case 22 => 646646 case 23 => 1144066 case 24 => 1961256 case 25 => 3268760 case 26 => 5311735 case 27 => 8436285
    case 28 => 13123110 case 29 => 20030010 case 30 => 30045015 case _ => 44352165
  }

  function Cnk11(n: nat): nat {
    match n
    case 0 => 0 case 1 => 0 case 2 => 0 case 3 => 0 case 4 => 0 case 5 => 0 case 6 => 0 case 7 => 0 case 8 => 0
    case 9 => 0 case 10 => 0 case 11 => 1 case 12 => 12 case 13 => 78 case 14 => 364 case 15 => 1365 case 16 => 4368
    case 17 => 12376 case 18 => 31824 case 19 => 75582 case 20 => 167960 case 21 => 352716 case 22 => 705432
    case 23 => 1352078 case 24 => 2496144 case 25 => 4457400 case 26 => 7726160 case 27 => 13037895
    case 28 => 21474180 case 29 => 34597290 case 30 => 54627300 case _ => 84672315
  }

  function Cnk12(n: nat): nat {
    match n
    case 0 => 0 case 1 => 0 case 2 => 0 case 3 => 0 case 4 => 0 case 5 => 0 case 6 => 0 case 7 => 0 case 8 => 0
    case 9 => 0 case 10 => 0 case 11 => 0 case 12 => 1 case 13 => 13 case 14 => 91 case 15 => 455 case 16 => 1820
    case 17 => 6188 case 18 => 18564 case 19 => 50388 case 20 => 125970 case 21 => 293930 case 22 => 646646
    case 23 => 1352078 case 24 => 2704156 case 25 => 5200300 case 26 => 9657700 case 27 => 17383860
    case 28 => 30421755 case 29 => 51895935 case 30 => 86493225 case _ => 141120525
  }

  function Cnk13(n: nat): nat {
    match n
    case 0 => 0 case 1 => 0 case 2 => 0 case 3 => 0 case 4 => 0 case 5 => 0 case 6 => 0 case 7 => 0 case 8 => 0
    case 9 => 0 case 10 => 0 case 11 => 0 case 12 => 0 case 13 => 1 case 14 => 14 case 15 => 105 case 16 => 560
    case 17 => 2380 case 18 => 8568 case 19 => 27132 case 20 => 77520 case 21 => 203490 case 22 => 497420
    case 23 => 1144066 case 24 => 2496144 case 25 => 5200300 case 26 => 10400600 case 27 => 20058300
    case 28 => 37442160 case 29 => 67863915 case 30 => 119759850 case _ => 206253075
  }

  function Cnk14(n: nat): nat {
    match n
    case 0 => 0 case 1 => 0 case 2 => 0 case 3 => 0 case 4 => 0 case 5 => 0 case 6 => 0 case 7 => 0 case 8 => 0
    case 9 => 0 case 10 => 0 case 11 => 0 case 12 => 0 case 13 => 0 case 14 => 1 case 15 => 15 case 16 => 120
    case 17 => 680 case 18 => 3060 case 19 => 11628 case 20 => 38760 case 21 => 116280 case 22 => 319770
    case 23 => 817190 case 24 => 1961256 case 25 => 4457400 case 26 => 9657700 case 27 => 20058300
    case 28 => 40116600 case 29 => 77558760 case 30 => 145422675 case _ => 265182525
  }

  function Cnk15(n: nat): nat {
    match n
    case 0 => 0 case 1 => 0 case 2 => 0 case 3 => 0 case 4 => 0 case 5 => 0 case 6 => 0 case 7 => 0 case 8 => 0
    case 9 => 0 case 10 => 0 case 11 => 0 case 12 => 0 case 13 => 0 case 14 => 0 case 15 => 1 case 16 => 16
    case 17 => 136 case 18 => 816 case 19 => 3876 case 20 => 15504 case 21 => 54264 case 22 => 170544
    case 23 => 490314 case 24 => 1307504 case 25 => 3268760 case 26 => 7726160 case 27 => 17383860
    case 28 => 37442160 case 29 => 77558760 case 30 => 155117520 case _ => 300540195
  }

  function Cnk16(n: nat): nat {
    match n
    case 0 => 0 case 1 => 0 case 2 => 0 case 3 => 0 case 4 => 0 case 5 => 0 case 6 => 0 case 7 => 0 case 8 => 0
    case 9 => 0 case 10 => 0 case 11 => 0 case 12 => 0 case 13 => 0 case 14 => 0 case 15 => 0 case 16 => 1
    case 17 => 17 case 18 => 153 case 19 => 969 case 20 => 4845 case 21 => 20349 case 22 => 74613 case 23 => 245157
    case 24 => 735471 case 25 => 2042975 case 26 => 5311735 case 27 => 13037895 case 28 => 30421755
    case 29 => 67863915 case 30 => 145422675 case _ => 300540195
  }

  function Len1(n: nat): nat {
    match n
    case 0 => 0 case 1 => 1 case 2 => 2 case 3 => 2 case 4 => 3 case 5 => 3 case 6 => 3 case 7 => 3 case 8 => 4
    case 9 => 4 case 10 => 4 case 11 => 4 case 12 => 4 case 13 => 4 case 14 => 4 case 15 => 4 case 16 => 5
    case 17 => 5 case 18 => 5 case 19 => 5 case 20 => 5 case 21 => 5 case 22 => 5 case 23 => 5 case 24 => 5
    case 25 => 5 case 26 => 5 case 27 => 5 case 28 => 5 case 29 => 5 case 30 => 5 case _ => 5
  }

  function Len2(n: nat): nat {
    match n
    case 0 => 0 case 1 => 0 case 2 => 2 case 3 => 3 case 4 => 4 case 5 => 4 case 6 => 5 case 7 => 5 case 8 => 6
    case 9 => 6 case 10 => 6 case 11 => 7 case 12 => 7 case 13 => 7 case 14 => 7 case 15 => 7 case 16 => 8
    case 17 => 8 case 18 => 8 case 19 => 8 case 20 => 8 case 21 => 8 case 22 => 8 case 23 => 9 case 24 => 9
    case 25 => 9 case 26 => 9 case 27 => 9 case 28 => 9 case 29 => 9 case 30 => 9 case _ => 9
  }

  function Len3(n: nat): nat {
    match n
    case 0 => 0 case 1 => 0 case 2 => 0 case 3 => 2 case 4 => 4 case 5 => 5 case 6 => 6 case 7 => 6 case 8 => 7
    case 9 => 7 case 10 => 8 case 11 => 8 case 12 => 9 case 13 => 9 case 14 => 9 case 15 => 10 case 16 => 10
    case 17 => 10 case 18 => 10 case 19 => 11 case 20 => 11 case 21 => 11 case 22 => 11 case 23 => 11 case 24 => 12
    case 25 => 12 case 26 => 12 case 27 => 12 case 28 => 12 case 29 => 12 case 30 => 13 case _ => 13
  }

  function Len4(n: nat): nat {
    match n
    case 0 => 0 case 1 => 0 case 2 => 0 case 3 => 0 case 4 => 3 case 5 => 4 case 6 => 6 case 7 => 7 case 8 => 7
    case 9 => 8 case 10 => 9 case 11 => 9 case 12 => 10 case 13 => 10 case 14 => 11 case 15 => 11 case 16 => 12
    case 17 => 12 case 18 => 12 case 19 => 13 case 20 => 13 case 21 => 13 case 22 => 14 case 23 => 14 case 24 => 14
    case 25 => 14 case 26 => 15 case 27 => 15 case 28 => 15 case 29 => 15 case 30 => 15 case _ => 16
  }

  function Len5(n: nat): nat {
    match n
    case 0 => 0 case 1 => 0 case 2 => 0 case 3 => 0 case 4 => 0 case 5 => 3 case 6 => 5 case 7 => 6 case 8 => 7
    case 9 => 8 case 10 => 9 case 11 => 10 case 12 => 11 case 13 => 11 case 14 => 12 case 15 => 13 case 16 => 13
    case 17 => 14 case 18 => 14 case 19 => 14 case 20 => 15 case 21 => 15 case 22 => 16 case 23 => 16 case 24 => 16
    case 25 => 17 case 26 => 17 case 27 => 17 case 28 => 17 case 29 => 18 case 30 => 18 case _ => 18
  }

  function Len6(n: nat): nat {
    match n
    case 0 => 0 case 1 => 0 case 2 => 0 case 3 => 0 case 4 => 0 case 5 => 0 case 6 => 3 case 7 => 5 case 8 => 7
    case 9 => 8 case 10 => 9 case 11 => 10 case 12 => 11 case 13 => 12 case 14 => 13 case 15 => 13 case 16 => 14
    case 17 => 15 case 18 => 15 case 19 => 16 case 20 => 16 case 21 => 17 case 22 => 17 case 23 => 18 case 24 => 18
    case 25 => 18 case 26 => 19 case 27 => 19 case 28 => 19 case 29 => 20 case 30 => 20 case _ => 20
  }

  function Len7(n: nat): nat {
    match n
    case 0 => 0 case 1 => 0 case 2 => 0 case 3 => 0 case 4 => 0 case 5 => 0 case 6 => 0 case 7 => 3 case 8 => 6
    case 9 => 7 case 10 => 9 case 11 => 10 case 12 => 11 case 13 => 12 case 14 => 13 case 15 => 14 case 16 => 15
    case 17 => 15 case 18 => 16 case 19 => 17 case 20 => 17 case 21 => 18 case 22 => 18 case 23 => 19 case 24 => 19
    case 25 => 20 case 26 => 20 case 27 => 21 case 28 => 21 case 29 => 21 case 30 => 22 case _ => 22
  }

  function Len8(n: nat): nat {
    match n
    case 0 => 0 case 1 => 0 case 2 => 0 case 3 => 0 case 4 => 0 case 5 => 0 case 6 => 0 case 7 => 0 case 8 => 4
    case 9 => 6 case 10 => 8 case 11 => 9 case 12 => 11 case 13 => 12 case 14 => 13 case 15 => 14 case 16 => 15
    case 17 => 16 case 18 => 17 case 19 => 17 case 20 => 18 case 21 => 19 case 22 => 19 case 23 => 20 case 24 => 21
    case 25 => 21 case 26 => 22 case 27 => 22 case 28 => 23 case 29 => 23 case 30 => 23 case _ => 24
  }

  function Len9(n: nat): nat {
    match n
    case 0 => 0 case 1 => 0 case 2 => 0 case 3 => 0 case 4 => 0 case 5 => 0 case 6 => 0 case 7 => 0 case 8 => 0
    case 9 => 4 case 10 => 6 case 11 => 8 case 12 => 10 case 13 => 11 case 14 => 13 case 15 => 14 case 16 => 15
    case 17 => 16 case 18 => 17 case 19 => 18 case 20 => 19 case 21 => 19 case 22 => 20 case 23 => 21 case 24 => 21
    case 25 => 22 case 26 => 23 case 27 => 23 case 28 => 24 case 29 => 24 case 30 => 25 case _ => 25
  }

  function Len10(n: nat): nat {
    match n
    case 0 => 0 case 1 => 0 case 2 => 0 case 3 => 0 case 4 => 0 case 5 => 0 case 6 => 0 case 7 => 0 case 8 => 0
    case 9 => 0 case 10 => 4 case 11 => 7 case 12 => 9 case 13 => 10 case 14 => 12 case 15 => 13 case 16 => 15
    case 17 => 16 case 18 => 17 case 19 => 18 case 20 => 19 case 21 => 20 case 22 => 21 case 23 => 21 case 24 => 22
    case 25 => 23 case 26 => 24 case 27 => 24 case 28 => 25 case 29 => 25 case 30 => 26 case _ => 26
  }

  function Len11(n: nat): nat {
    match n
    case 0 => 0 case 1 => 0 case 2 => 0 case 3 => 0 case 4 => 0 case 5 => 0 case 6 => 0 case 7 => 0 case 8 => 0
    case 9 => 0 case 10 => 0 case 11 => 4 case 12 => 7 case 13 => 9 case 14 => 11 case 15 => 13 case 16 => 14
    case 17 => 15 case 18 => 17 case 19 => 18 case 20 => 19 case 21 => 20 case 22 => 21 case 23 => 22 case 24 => 23
    case 25 => 23 case 26 => 24 case 27 => 25 case 28 => 26 case 29 => 26 case 30 => 27 case _ => 27
  }

  function Len12(n: nat): nat {
    match n
    case 0 => 0 case 1 => 0 case 2 => 0 case 3 => 0 case 4 => 0 case 5 => 0 case 6 => 0 case 7 => 0 case 8 => 0
    case 9 => 0 case 10 => 0 case 11 => 0 case 12 => 4 case 13 => 7 case 14 => 9 case 15 => 11 case 16 => 13
    case 17 => 15 case 18 => 16 case 19 => 17 case 20 => 19 case 21 => 20 case 22 => 21 case 23 => 22 case 24 => 23
    case 25 => 24 case 26 => 25 case 27 => 25 case 28 => 26 case 29 => 27 case 30 => 28 case _ => 28
  }

  function Len13(n: nat): nat {
    match n
    case 0 => 0 case 1 => 0 case 2 => 0 case 3 => 0 case 4 => 0 case 5 => 0 case 6 => 0 case 7 => 0 case 8 => 0
    case 9 => 0 case 10 => 0 case 11 => 0 case 12 => 0 case 13 => 4 case 14 => 7 case 15 => 10 case 16 => 12
    case 17 => 14 case 18 => 15 case 19 => 17 case 20 => 18 case 21 => 19 case 22 => 21 case 23 => 22 case 24 => 23
    case 25 => 24 case 26 => 25 case 27 => 26 case 28 => 27 case 29 => 27 case 30 => 28 case _ => 29
  }

  function Len14(n: nat): nat {
    match n
    case 0 => 0 case 1 => 0 case 2 => 0 case 3 => 0 case 4 => 0 case 5 => 0 case 6 => 0 case 7 => 0 case 8 => 0
    case 9 => 0 case 10 => 0 case 11 => 0 case 12 => 0 case 13 => 0 case 14 => 4 case 15 => 7 case 16 => 10
    case 17 => 12 case 18 => 14 case 19 => 16 case 20 => 17 case 21 => 19 case 22 => 20 case 23 => 21 case 24 => 23
    case 25 => 24 case 26 => 25 case 27 => 26 case 28 => 27 case 29 => 28 case 30 => 28 case _ => 29
  }

  function Len15(n: nat): nat {
    match n
    case 0 => 0 case 1 => 0 case 2 => 0 case 3 => 0 case 4 => 0 case 5 => 0 case 6 => 0 case 7 => 0 case 8 => 0
    case 9 => 0 case 10 => 0 case 11 => 0 case 12 => 0 case 13 => 0 case 14 => 0 case 15 => 4 case 16 => 8
    case 17 => 10 case 18 => 12 case 19 => 14 case 20 => 16 case 21 => 18 case 22 => 19 case 23 => 21 case 24 => 22
    case 25 => 23 case 26 => 25 case 27 => 26 case 28 => 27 case 29 => 28 case 30 => 29 case _ => 30
  }

  function Len16(n: nat): nat {
    match n
    case 0 => 0 case 1 => 0 case 2 => 0 case 3 => 0 case 4 => 0 case 5 => 0 case 6 => 0 case 7 => 0 case 8 => 0
    case 9 => 0 case 10 => 0 case 11 => 0 case 12 => 0 case 13 => 0 case 14 => 0 case 15 => 0 case 16 => 5
    case 17 => 8 case 18 => 10 case 19 => 13 case 20 => 15 case 21 => 17 case 22 => 18 case 23 => 20 case 24 => 21
    case 25 => 23 case 26 => 24 case 27 => 25 case 28 => 27 case 29 => 28 case 30 => 29 case _ => 30
  }

  function Lost1(n: nat): nat {
    match n
    case 0 => 0 case 1 => 0 case 2 => 1 case 3 => 0 case 4 => 3 case 5 => 2 case 6 => 1 case 7 => 0 case 8 => 7
    case 9 => 6 case 10 => 5 case 11 => 4 case 12 => 3 case 13 => 2 case 14 => 1 case 15 => 0 case 16 => 15
    case 17 => 14 case 18 => 13 case 19 => 12 case 20 => 11 case 21 => 10 case 22 => 9 case 23 => 8 case 24 => 7
    case 25 => 6 case 26 => 5 case 27 => 4 case 28 => 3 case 29 => 2 case 30 => 1 case _ => 0
  }

  function Lost2(n: nat): nat {
    match n
    case 0 => 0 case 1 => 0 case 2 => 1 case 3 => 2 case 4 => 6 case 5 => 1 case 6 => 11 case 7 => 4 case 8 => 28
    case 9 => 19 case 10 => 9 case 11 => 62 case 12 => 50 case 13 => 37 case 14 => 23 case 15 => 8 case 16 => 120
    case 17 => 103 case 18 => 85 case 19 => 66 case 20 => 46 case 21 => 25 case 22 => 3 case 23 => 236
    case 24 => 212 case 25 => 187 case 26 => 161 case 27 => 134 case 28 => 106 case 29 => 77 case 30 => 47 case _ => 16
  }

  function Lost3(n: nat): nat {
    match n
    case 0 => 0 case 1 => 0 case 2 => 0 case 3 => 0 case 4 => 6 case 5 => 12 case 6 => 29 case 7 => 8 case 8 => 44
    case 9 => 8 case 10 => 91 case 11 => 36 case 12 => 226 case 13 => 148 case 14 => 57 case 15 => 464
    case 16 => 344 case 17 => 208 case 18 => 55 case 19 => 908 case 20 => 718 case 21 => 508 case 22 => 277
    case 23 => 24 case 24 => 1796 case 25 => 1496 case 26 => 1171 case 27 => 820 case 28 => 442 case 29 => 36
    case 30 => 3697 case _ => 3232
  }

  function Lost4(n: nat): nat {
    match n
    case 0 => 0 case 1 => 0 case 2 => 0 case 3 => 0 case 4 => 3 case 5 => 1 case 6 => 29 case 7 => 58 case 8 => 2
    case 9 => 46 case 10 => 182 case 11 => 17 case 12 => 309 case 13 => 23 case 14 => 683 case 15 => 228
    case 16 => 1716 case 17 => 1036 case 18 => 220 case 19 => 3347 case 20 => 2207 case 21 => 877 case 22 => 7529
    case 23 => 5758 case 24 => 3734 case 25 => 1434 case 26 => 15218 case 27 => 12293 case 28 => 9017
    case 29 => 5363 case 30 => 1303 case _ => 29576
  }

  function Lost5(n: nat): nat {
    match n
    case 0 => 0 case 1 => 0 case 2 => 0 case 3 => 0 case 4 => 0 case 5 => 2 case 6 => 11 case 7 => 8 case 8 => 2
    case 9 => 4 case 10 => 50 case 11 => 232 case 12 => 761 case 13 => 46 case 14 => 1093 case 15 => 3824
    case 16 => 2004 case 17 => 7816 case 18 => 4756 case 19 => 880 case 20 => 12419 case 21 => 6434 case 22 => 31887
    case 23 => 23032 case 24 => 12406 case 25 => 65292 case 26 => 50342 case 27 => 32792 case 28 => 12317
    case 29 => 119638 case 30 => 92233 case _ => 60768
  }

  function Lost6(n: nat): nat {
    match n
    case 0 => 0 case 1 => 0 case 2 => 0 case 3 => 0 case 4 => 0 case 5 => 0 case 6 => 1 case 7 => 4 case 8 => 44
    case 9 => 46 case 10 => 50 case 11 => 100 case 12 => 332 case 13 => 1093 case 14 => 3187 case 15 => 184
    case 16 => 4008 case 17 => 14204 case 18 => 5636 case 19 => 26776 case 20 => 11272 case 21 => 56459
    case 22 => 30125 case 23 => 127548 case 24 => 85044 case 25 => 31914 case 26 => 228278 case 27 => 147548
    case 28 => 49268 case 29 => 454801 case 30 => 312295 case _ => 142384
  }

  function Lost7(n: nat): nat {
    match n
    case 0 => 0 case 1 => 0 case 2 => 0 case 3 => 0 case 4 => 0 case 5 => 0 case 6 => 0 case 7 => 0 case 8 => 28
    case 9 => 8 case 10 => 182 case 11 => 232 case 12 => 332 case 13 => 664 case 14 => 1757 case 15 => 4944
    case 16 => 13320 case 17 => 944 case 18 => 15148 case 19 => 53552 case 20 => 14792 case 21 => 91600
    case 22 => 16987 case 23 => 178184 case 24 => 43588 case 25 => 390776 case 26 => 160546 case 27 => 913112
    case 28 => 536372 case 29 => 61352 case 30 => 1564729 case _ => 828448
  }

  function Lost8(n: nat): nat {
    match n
    case 0 => 0 case 1 => 0 case 2 => 0 case 3 => 0 case 4 => 0 case 5 => 0 case 6 => 0 case 7 => 0 case 8 => 7
    case 9 => 19 case 10 => 91 case 11 => 17 case 12 => 761 case 13 => 1093 case 14 => 1757 case 15 => 3514
    case 16 => 8458 case 17 => 21778 case 18 => 55490 case 19 => 5102 case 20 => 58654 case 21 => 204518
    case 22 => 33974 case 23 => 313105 case 24 => 1015577 case 25 => 534877 case 26 => 1974229 case 27 => 1086199
    case 28 => 4096463 case 29 => 2535683 case 30 => 499883 case _ => 6258916
  }

  function Lost9(n: nat): nat {
    match n
    case 0 => 0 case 1 => 0 case 2 => 0 case 3 => 0 case 4 => 0 case 5 => 0 case 6 => 0 case 7 => 0 case 8 => 0
    case 9 => 6 case 10 => 9 case 11 => 36 case 12 => 309 case 13 => 46 case 14 => 3187 case 15 => 4944
    case 16 => 8458 case 17 => 16916 case 18 => 38694 case 19 => 94184 case 20 => 230358 case 21 => 26868
    case 22 => 231386 case 23 => 789648 case 24 => 54177 case 25 => 1069754 case 26 => 3701783 case 27 => 1481708
    case 28 => 6762211 case 29 => 2470066 case 30 => 13394357 case _ => 5505632
  }

  function Lost10(n: nat): nat {
    match n
    case 0 => 0 case 1 => 0 case 2 => 0 case 3 => 0 case 4 => 0 case 5 => 0 case 6 => 0 case 7 => 0 case 8 => 0
    case 9 => 0 case 10 => 5 case 11 => 62 case 12 => 226 case 13 => 23 case 14 => 1093 case 15 => 184
    case 16 => 13320 case 17 => 21778 case 18 => 38694 case 19 => 77388 case 20 => 171572 case 21 => 401930
    case 22 => 953086 case 23 => 135896 case 24 => 925544 case 25 => 3076873 case 26 => 8340931 case 27 => 3654106
    case 28 => 13524422 case 29 => 3509417 case 30 => 22756699 case _ => 2596624
  }

  function Lost11(n: nat): nat {
    match n
    case 0 => 0 case 1 => 0 case 2 => 0 case 3 => 0 case 4 => 0 case 5 => 0 case 6 => 0 case 7 => 0 case 8 => 0
    case 9 => 0 case 10 => 0 case 11 => 4 case 12 => 50 case 13 => 148 case 14 => 683 case 15 => 3824
    case 16 => 4008 case 17 => 944 case 18 => 55490 case 19 => 94184 case 20 => 171572 case 21 => 343144
    case 22 => 745074 case 23 => 1698160 case 24 => 3931208 case 25 => 662448 case 26 => 3739321 case 27 => 12080252
    case 28 => 32511574 case 29 => 12481564 case 30 => 49545413 case _ => 5193248
  }

  function Lost12(n: nat): nat {
    match n
    case 0 => 0 case 1 => 0 case 2 => 0 case 3 => 0 case 4 => 0 case 5 => 0 case 6 => 0 case 7 => 0 case 8 => 0
    case 9 => 0 case 10 => 0 case 11 => 0 case 12 => 3 case 13 => 37 case 14 => 57 case 15 => 228 case 16 => 2004
    case 17 => 14204 case 18 => 15148 case 19 => 5102 case 20 => 230358 case 21 => 401930 case 22 => 745074
    case 23 => 1490148 case 24 => 3188308 case 25 => 7119516 case 26 => 16170572 case 27 => 3132677
    case 28 => 15212929 case 29 => 47724503 case 30 => 127314931 case _ => 42642616
  }

  function Lost13(n: nat): nat {
    match n
    case 0 => 0 case 1 => 0 case 2 => 0 case 3 => 0 case 4 => 0 case 5 => 0 case 6 => 0 case 7 => 0 case 8 => 0
    case 9 => 0 case 10 => 0 case 11 => 0 case 12 => 0 case 13 => 2 case 14 => 23 case 15 => 464 case 16 => 1716
    case 17 => 7816 case 18 => 5636 case 19 => 53552 case 20 => 58654 case 21 => 26868 case 22 => 953086
    case 23 => 1698160 case 24 => 3188308 case 25 => 6376616 case 26 => 13496132 case 27 => 29666704
    case 28 => 66353813 case 29 => 14457878 case 30 => 62182381 case _ => 189497312
  }

  function Lost14(n: nat): nat {
    match n
    case 0 => 0 case 1 => 0 case 2 => 0 case 3 => 0 case 4 => 0 case 5 => 0 case 6 => 0 case 7 => 0 case 8 => 0
    case 9 => 0 case 10 => 0 case 11 => 0 case 12 => 0 case 13 => 0 case 14 => 1 case 15 => 8 case 16 => 344
    case 17 => 1036 case 18 => 4756 case 19 => 26776 case 20 => 14792 case 21 => 204518 case 22 => 231386
    case 23 => 135896 case 24 => 3931208 case 25 => 7119516 case 26 => 13496132 case 27 => 26992264
    case 28 => 56658968 case 29 => 123012781 case 30 => 3252931 case _ => 65435312
  }

  function Lost15(n: nat): nat {
    match n
    case 0 => 0 case 1 => 0 case 2 => 0 case 3 => 0 case 4 => 0 case 5 => 0 case 6 => 0 case 7 => 0 case 8 => 0
    case 9 => 0 case 10 => 0 case 11 => 0 case 12 => 0 case 13 => 0 case 14 => 0 case 15 => 0 case 16 => 120
    case 17 => 208 case 18 => 220 case 19 => 880 case 20 => 11272 case 21 => 91600 case 22 => 33974
    case 23 => 789648 case 24 => 925544 case 25 => 662448 case 26 => 16170572 case 27 => 29666704
    case 28 => 56658968 case 29 => 113317936 case 30 => 236330717 case _ => 508019104
  }

  /** The source lists only 31 values here; C fills the missing one with zero. */
  function Lost16(n: nat): nat {
    match n
    case 0 => 0 case 1 => 0 case 2 => 0 case 3 => 0 case 4 => 0 case 5 => 0 case 6 => 0 case 7 => 0 case 8 => 0
    case 9 => 0 case 10 => 0 case 11 => 0 case 12 => 0 case 13 => 0 case 14 => 0 case 15 => 0 case 16 => 15
    case 17 => 103 case 18 => 55 case 19 => 3347 case 20 => 12419 case 21 => 56459 case 22 => 16987
    case 23 => 313105 case 24 => 54177 case 25 => 3076873 case 26 => 3739321 case 27 => 3132677 case 28 => 66353813
    case 29 => 123012781 case 30 => 236330717 case _ => 0
  }

  /** `Cnk[k - 1][n]`. */
  function Cnk(k: nat, n: nat): nat
    requires 1 <= k <= 16 && n < 32
  {
    match k
    case 1 => Cnk1(n) case 2 => Cnk2(n) case 3 => Cnk3(n) case 4 => Cnk4(n) case 5 => Cnk5(n) case 6 => Cnk6(n)
    case 7 => Cnk7(n) case 8 => Cnk8(n) case 9 => Cnk9(n) case 10 => Cnk10(n) case 11 => Cnk11(n)
    case 12 => Cnk12(n) case 13 => Cnk13(n) case 14 => Cnk14(n) case 15 => Cnk15(n) case _ => Cnk16(n)
  }

  /** `Cnk_len[k - 1][n]`. */
  function CnkLen(k: nat, n: nat): nat
    requires 1 <= k <= 16 && n < 32
  {
    match k
    case 1 => Len1(n) case 2 => Len2(n) case 3 => Len3(n) case 4 => Len4(n) case 5 => Len5(n) case 6 => Len6(n)
    case 7 => Len7(n) case 8 => Len8(n) case 9 => Len9(n) case 10 => Len10(n) case 11 => Len11(n)
    case 12 => Len12(n) case 13 => Len13(n) case 14 => Len14(n) case 15 => Len15(n) case _ => Len16(n)
  }

  /** `Cnk_lost[k - 1][n]`. */
  function CnkLost(k: nat, n: nat): nat
    requires 1 <= k <= 16 && n < 32
  {
    match k
    case 1 => Lost1(n) case 2 => Lost2(n) case 3 => Lost3(n) case 4 => Lost4(n) case 5 => Lost5(n)
    case 6 => Lost6(n) case 7 => Lost7(n) case 8 => Lost8(n) case 9 => Lost9(n) case 10 => Lost10(n)
    case 11 => Lost11(n) case 12 => Lost12(n) case 13 => Lost13(n) case 14 => Lost14(n) case 15 => Lost15(n)
    case _ => Lost16(n)
  }

  /** The two properties a row needs at `n`: Pascal's rule, and a truncated binary code with a word for
      each of the `total` ranks of choosing from `n + 1`. */
  ghost predicate RowAt(n: nat, at: nat, next: nat, prev: nat, lo: nat, len: nat, lost: nat)
  {
    && (n == 0 ==> at == 0)
    && (n < 31 ==> next == at + prev)
    && (n >= lo ==> 1 <= len < 31 && Power(len - 1) < at + prev)
    && (n >= lo ==> if lo == 16 && n == 31 then len == 30 && lost == 0 && at + prev <= Power(30) else lost + at + prev == Power(len))
  }

  lemma Row1(n: nat)
    requires n < 32
    ensures RowAt(n, Cnk1(n), Cnk1(n + 1), 1, 1, Len1(n), Lost1(n))
  {}

  lemma Row2(n: nat)
    requires n < 32
    ensures RowAt(n, Cnk2(n), Cnk2(n + 1), Cnk1(n), 2, Len2(n), Lost2(n))
  {}

  lemma Row3(n: nat)
    requires n < 32
    ensures RowAt(n, Cnk3(n), Cnk3(n + 1), Cnk2(n), 3, Len3(n), Lost3(n))
  {}

  lemma Row4(n: nat)
    requires n < 32
    ensures RowAt(n, Cnk4(n), Cnk4(n + 1), Cnk3(n), 4, Len4(n), Lost4(n))
  {}

  lemma Row5(n: nat)
    requires n < 32
    ensures RowAt(n, Cnk5(n), Cnk5(n + 1), Cnk4(n), 5, Len5(n), Lost5(n))
  {}

  lemma Row6(n: nat)
    requires n < 32
    ensures RowAt(n, Cnk6(n), Cnk6(n + 1), Cnk5(n), 6, Len6(n), Lost6(n))
  {}

  lemma Row7(n: nat)
    requires n < 32
    ensures RowAt(n, Cnk7(n), Cnk7(n + 1), Cnk6(n), 7, Len7(n), Lost7(n))
  {}

  lemma Row8(n: nat)
    requires n < 32
    ensures RowAt(n, Cnk8(n), Cnk8(n + 1), Cnk7(n), 8, Len8(n), Lost8(n))
  {}

  lemma Row9(n: nat)
    requires n < 32
    ensures RowAt(n, Cnk9(n), Cnk9(n + 1), Cnk8(n), 9, Len9(n), Lost9(n))
  {}

  lemma Row10(n: nat)
    requires n < 32
    ensures RowAt(n, Cnk10(n), Cnk10(n + 1), Cnk9(n), 10, Len10(n), Lost10(n))
  {}

  lemma Row11(n: nat)
    requires n < 32
    ensures RowAt(n, Cnk11(n), Cnk11(n + 1), Cnk10(n), 11, Len11(n), Lost11(n))
  {}

  lemma Row12(n: nat)
    requires n < 32
    ensures RowAt(n, Cnk12(n), Cnk12(n + 1), Cnk11(n), 12, Len12(n), Lost12(n))
  {}

  lemma Row13(n: nat)
    requires n < 32
    ensures RowAt(n, Cnk13(n), Cnk13(n + 1), Cnk12(n), 13, Len13(n), Lost13(n))
  {}

  lemma Row14(n: nat)
    requires n < 32
    ensures RowAt(n, Cnk14(n), Cnk14(n + 1), Cnk13(n), 14, Len14(n), Lost14(n))
  {}

  lemma Row15(n: nat)
    requires n < 32
    ensures RowAt(n, Cnk15(n), Cnk15(n + 1), Cnk14(n), 15, Len15(n), Lost15(n))
  {}

  lemma Row16(n: nat)
    requires n < 32
    ensures RowAt(n, Cnk16(n), Cnk16(n + 1), Cnk15(n), 16, Len16(n), Lost16(n))
  {}

  lemma Rows(k: nat, n: nat)
    requires 1 <= k <= 16 && n < 32
    ensures RowAt(n, Cnk(k, n), if n < 31 then Cnk(k, n + 1) else 0, if k > 1 then Cnk(k - 1, n) else 1,
                  k, CnkLen(k, n), CnkLost(k, n))
  {
    match k {
      case 1 => Row1(n);
      case 2 => Row2(n);
      case 3 => Row3(n);
      case 4 => Row4(n);
      case 5 => Row5(n);
      case 6 => Row6(n);
      case 7 => Row7(n);
      case 8 => Row8(n);
      case 9 => Row9(n);
      case 10 => Row10(n);
      case 11 => Row11(n);
      case 12 => Row12(n);
      case 13 => Row13(n);
      case 14 => Row14(n);
      case 15 => Row15(n);
      case _ => Row16(n);
    }
  }

  lemma {:induction false} PowerIs(n: nat)
    requires n < 31
    ensures Power(n) == Pow2(n)
  {
    if n > 0 { PowerIs(n - 1); }
  }

  /** Every entry of the first table is a binomial coefficient. */
  lemma {:induction false} CnkIsChoose(k: nat, n: nat)
    requires 1 <= k <= 16 && n < 32
    ensures Cnk(k, n) == Choose(n, k)
    decreases n, k
  {
    hide Cnk, CnkLen, CnkLost, Power;
    Rows(k, if n == 0 then 0 else n - 1);
    if n > 0 {
      CnkIsChoose(k, n - 1);
      if k > 1 { CnkIsChoose(k - 1, n - 1); }
    }
  }

  lemma Pascal(n: nat, k: nat)
    requires n > 0 && k > 0
    ensures Choose(n, k) == Choose(n - 1, k) + Choose(n - 1, k - 1) && Choose(n - 1, 0) == 1
  {}

  lemma PowTwice(n: nat)
    requires n > 0
    ensures Pow2(n) == 2 * Pow2(n - 1)
  {}

  /** The other two tables give a code with not one word too many: its longer words are just as long as there are
      ranks for, and its shorter ones are as many as that leaves. Only in the entry the source leaves out every word
      is a long one. */
  lemma CodeIsRoomy(k: nat, n: nat)
    requires 1 <= k <= 16 && k < n <= 32
    ensures var len, lost := CnkLen(k, n - 1), CnkLost(k, n - 1);
            && 1 <= len < 31 && lost <= Pow2(len - 1) < Choose(n, k) && lost + Choose(n, k) <= Pow2(len)
            && (if k == 16 && n == 32 then len == 30 && lost == 0 else lost + Choose(n, k) == Pow2(len))
  {
    hide Cnk, CnkLen, CnkLost, Power, Pow2, Choose;
    Rows(k, n - 1);
    PowerIs(CnkLen(k, n - 1));
    PowerIs(CnkLen(k, n - 1) - 1);
    PowTwice(CnkLen(k, n - 1));
    CnkIsChoose(k, n - 1);
    if k > 1 { CnkIsChoose(k - 1, n - 1); }
    Pascal(n, k);
  }
}
