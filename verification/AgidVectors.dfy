/** The three published parity vectors, each traced turn by turn: the packed face and Hilbert index, and its
    ten Base32 digits. */
module AgidVectors {
  import opened Agid
  import opened Arithmetic
  import opened Hilbert

  // One level of the Hilbert index, with the coordinates divided by s given.
  lemma Turn(k: nat, s: nat, p: nat, x: int, y: int, qx: int, qy: int, x': int, y': int, rest: nat)
    requires k > 0 && Pow2(k - 1) == s && Pow4(k - 1) == p
    requires qx * s <= x < qx * s + s && qy * s <= y < qy * s + s
    requires Cell(x', y') ==
             if qy % 2 == 1 then Cell(x, y) else if qx % 2 == 0 then Cell(y, x) else Cell(s - 1 - y, s - 1 - x)
    requires Index(k - 1, Cell(x', y')) == rest
    ensures Index(k, Cell(x, y)) ==
            (if qx % 2 == 0 then if qy % 2 == 0 then 0 else p else if qy % 2 == 0 then 3 * p else 2 * p) + rest
    ensures Pow2(k) == 2 * s && Pow4(k) == 4 * p
  {
    assert qx * s + s == (qx + 1) * s && qy * s + s == (qy + 1) * s;
    QuotientRun(x, s, qx);
    QuotientRun(y, s, qy);
  }

  lemma LevelZero(c: Cell)
    ensures Index(0, c) == 0 && Pow2(0) == 1 && Pow4(0) == 1
  {
  }

  lemma NoDigits()
    ensures Digits(0, 0) == ""
  {
  }

  lemma AppendDigit(v: nat, length: nat, q: nat, before: string, c: char, after: string)
    requires length > 0 && q == v / 32 && Digits(q, length - 1) == before
    requires Digit(v % 32) == c && after == before + [c]
    ensures Digits(v, length) == after
  {
  }

  lemma TokyoStationIndex()
    ensures Index(21, Cell(111082, 2056297)) == 1472396345901
  {
    LevelZero(Cell(78316, 2023531));
    hide *;
    Turn(1, 1, 1, 78316, 2023531, 78316, 2023531, 78316, 2023531, 0);
    Turn(2, 2, 4, -2023530, -78315, -1011765, -39158, 78316, 2023531, 1);
    Turn(3, 4, 16, -2023530, -78315, -505883, -19579, -2023530, -78315, 13);
    Turn(4, 8, 64, -78315, -2023530, -9790, -252942, -2023530, -78315, 45);
    Turn(5, 16, 256, -78315, -2023530, -4895, -126471, -78315, -2023530, 45);
    Turn(6, 32, 1024, -2023530, -78315, -63236, -2448, -78315, -2023530, 557);
    Turn(7, 64, 4096, -78315, -2023530, -1224, -31618, -2023530, -78315, 557);
    Turn(8, 128, 16384, -78315, -2023530, -612, -15809, -78315, -2023530, 557);
    Turn(9, 256, 65536, -78315, -2023530, -306, -7905, -78315, -2023530, 16941);
    Turn(10, 512, 262144, -78315, -2023530, -153, -3953, -78315, -2023530, 82477);
    Turn(11, 1024, 1048576, -78315, -2023530, -77, -1977, -78315, -2023530, 606765);
    Turn(12, 2048, 4194304, -78315, -2023530, -39, -989, -78315, -2023530, 2703917);
    Turn(13, 4096, 16777216, -78315, -2023530, -20, -495, -78315, -2023530, 11092525);
    Turn(14, 8192, 67108864, -2023530, -78315, -248, -10, -78315, -2023530, 27869741);
    Turn(15, 16384, 268435456, -2023530, -78315, -124, -5, -2023530, -78315, 27869741);
    Turn(16, 32768, 1073741824, 111082, 2056297, 3, 62, -2023530, -78315, 296305197);
    Turn(17, 65536, 4294967296, 111082, 2056297, 1, 31, 111082, 2056297, 3517530669);
    Turn(18, 131072, 17179869184, 111082, 2056297, 0, 15, 111082, 2056297, 12107465261);
    Turn(19, 262144, 68719476736, 111082, 2056297, 0, 7, 111082, 2056297, 29287334445);
    Turn(20, 524288, 274877906944, 111082, 2056297, 0, 3, 111082, 2056297, 98006811181);
    Turn(21, 1048576, 1099511627776, 111082, 2056297, 0, 1, 111082, 2056297, 372884718125);
  }

  lemma TokyoStationFirstDigits()
    ensures Digits(174952, 5) == "05AV8"
  {
    NoDigits();
    hide Digits;
    AppendDigit(0, 1, 0, "", '0', "0");
    AppendDigit(5, 2, 0, "0", '5', "05");
    AppendDigit(170, 3, 5, "05", 'A', "05A");
    AppendDigit(5467, 4, 170, "05A", 'V', "05AV");
    AppendDigit(174952, 5, 5467, "05AV", '8', "05AV8");
  }

  lemma TokyoStationDigits()
    ensures Digits(5870442857005, 10) == "05AV8TJGHD"
  {
    TokyoStationFirstDigits();
    hide Digits;
    AppendDigit(5598490, 6, 174952, "05AV8", 'T', "05AV8T");
    AppendDigit(179151698, 7, 5598490, "05AV8T", 'J', "05AV8TJ");
    AppendDigit(5732854352, 8, 179151698, "05AV8TJ", 'G', "05AV8TJG");
    AppendDigit(183451339281, 9, 5732854352, "05AV8TJG", 'H', "05AV8TJGH");
    AppendDigit(5870442857005, 10, 183451339281, "05AV8TJGH", 'D', "05AV8TJGHD");
  }

  // Latitude 35.681236, longitude 139.767125: face 1.
  lemma TokyoStationVector()
    ensures HashOf(1, Cell(111082, 2056297)) == "05AV8TJGHD"
  {
    TokyoStationIndex();
    TokyoStationDigits();
    hide Index, Digits;
  }

  lemma NullIslandIndex()
    ensures Index(21, Cell(1048576, 1048576)) == 2199023255552
  {
    LevelZero(Cell(1048576, 1048576));
    hide *;
    Turn(1, 1, 1, 1048576, 1048576, 1048576, 1048576, 1048576, 1048576, 0);
    Turn(2, 2, 4, 1048576, 1048576, 524288, 524288, 1048576, 1048576, 0);
    Turn(3, 4, 16, 1048576, 1048576, 262144, 262144, 1048576, 1048576, 0);
    Turn(4, 8, 64, 1048576, 1048576, 131072, 131072, 1048576, 1048576, 0);
    Turn(5, 16, 256, 1048576, 1048576, 65536, 65536, 1048576, 1048576, 0);
    Turn(6, 32, 1024, 1048576, 1048576, 32768, 32768, 1048576, 1048576, 0);
    Turn(7, 64, 4096, 1048576, 1048576, 16384, 16384, 1048576, 1048576, 0);
    Turn(8, 128, 16384, 1048576, 1048576, 8192, 8192, 1048576, 1048576, 0);
    Turn(9, 256, 65536, 1048576, 1048576, 4096, 4096, 1048576, 1048576, 0);
    Turn(10, 512, 262144, 1048576, 1048576, 2048, 2048, 1048576, 1048576, 0);
    Turn(11, 1024, 1048576, 1048576, 1048576, 1024, 1024, 1048576, 1048576, 0);
    Turn(12, 2048, 4194304, 1048576, 1048576, 512, 512, 1048576, 1048576, 0);
    Turn(13, 4096, 16777216, 1048576, 1048576, 256, 256, 1048576, 1048576, 0);
    Turn(14, 8192, 67108864, 1048576, 1048576, 128, 128, 1048576, 1048576, 0);
    Turn(15, 16384, 268435456, 1048576, 1048576, 64, 64, 1048576, 1048576, 0);
    Turn(16, 32768, 1073741824, 1048576, 1048576, 32, 32, 1048576, 1048576, 0);
    Turn(17, 65536, 4294967296, 1048576, 1048576, 16, 16, 1048576, 1048576, 0);
    Turn(18, 131072, 17179869184, 1048576, 1048576, 8, 8, 1048576, 1048576, 0);
    Turn(19, 262144, 68719476736, 1048576, 1048576, 4, 4, 1048576, 1048576, 0);
    Turn(20, 524288, 274877906944, 1048576, 1048576, 2, 2, 1048576, 1048576, 0);
    Turn(21, 1048576, 1099511627776, 1048576, 1048576, 1, 1, 1048576, 1048576, 0);
  }

  lemma NullIslandFirstDigits()
    ensures Digits(65536, 5) == "02000"
  {
    NoDigits();
    hide Digits;
    AppendDigit(0, 1, 0, "", '0', "0");
    AppendDigit(2, 2, 0, "0", '2', "02");
    AppendDigit(64, 3, 2, "02", '0', "020");
    AppendDigit(2048, 4, 64, "020", '0', "0200");
    AppendDigit(65536, 5, 2048, "0200", '0', "02000");
  }

  lemma NullIslandDigits()
    ensures Digits(2199023255552, 10) == "0200000000"
  {
    NullIslandFirstDigits();
    hide Digits;
    AppendDigit(2097152, 6, 65536, "02000", '0', "020000");
    AppendDigit(67108864, 7, 2097152, "020000", '0', "0200000");
    AppendDigit(2147483648, 8, 67108864, "0200000", '0', "02000000");
    AppendDigit(68719476736, 9, 2147483648, "02000000", '0', "020000000");
    AppendDigit(2199023255552, 10, 68719476736, "020000000", '0', "0200000000");
  }

  // Latitude 0, longitude 0: face 0.
  lemma NullIslandVector()
    ensures HashOf(0, Cell(1048576, 1048576)) == "0200000000"
  {
    NullIslandIndex();
    NullIslandDigits();
    hide Index, Digits;
  }

  lemma NewYorkIndex()
    ensures Index(21, Cell(1421263, 2023382)) == 2642327636841
  {
    LevelZero(Cell(1970150, 1368031));
    hide *;
    Turn(1, 1, 1, 1970150, 1368031, 1970150, 1368031, 1970150, 1368031, 0);
    Turn(2, 2, 4, 1970150, 1368031, 985075, 684015, 1970150, 1368031, 1);
    Turn(3, 4, 16, 1970150, 1368031, 492537, 342007, 1970150, 1368031, 9);
    Turn(4, 8, 64, 1970150, 1368031, 246268, 171003, 1970150, 1368031, 41);
    Turn(5, 16, 256, -1368016, -1970135, -85501, -123134, 1970150, 1368031, 105);
    Turn(6, 32, 1024, -1368016, -1970135, -42751, -61567, -1368016, -1970135, 873);
    Turn(7, 64, 4096, -1970135, -1368016, -30784, -21376, -1368016, -1970135, 2921);
    Turn(8, 128, 16384, -1368016, -1970135, -10688, -15392, -1970135, -1368016, 2921);
    Turn(9, 256, 65536, -1970135, -1368016, -7696, -5344, -1368016, -1970135, 2921);
    Turn(10, 512, 262144, -1368016, -1970135, -2672, -3848, -1970135, -1368016, 2921);
    Turn(11, 1024, 1048576, -1970135, -1368016, -1924, -1336, -1368016, -1970135, 2921);
    Turn(12, 2048, 4194304, -1368016, -1970135, -668, -962, -1970135, -1368016, 2921);
    Turn(13, 4096, 16777216, 1974230, 1372111, 481, 334, -1368016, -1970135, 2921);
    Turn(14, 8192, 67108864, 1974230, 1372111, 240, 167, 1974230, 1372111, 50334569);
    Turn(15, 16384, 268435456, -1355728, -1957847, -83, -120, 1974230, 1372111, 117443433);
    Turn(16, 32768, 1073741824, -1957847, -1355728, -60, -42, -1355728, -1957847, 922749801);
    Turn(17, 65536, 4294967296, 1421263, 2023382, 21, 30, -1957847, -1355728, 922749801);
    Turn(18, 131072, 17179869184, 1421263, 2023382, 10, 15, 1421263, 2023382, 13807651689);
    Turn(19, 262144, 68719476736, 1421263, 2023382, 5, 7, 1421263, 2023382, 30987520873);
    Turn(20, 524288, 274877906944, 1421263, 2023382, 2, 3, 1421263, 2023382, 168426474345);
    Turn(21, 1048576, 1099511627776, 1421263, 2023382, 1, 1, 1421263, 2023382, 443304381289);
  }

  lemma NewYorkFirstDigits()
    ensures Digits(471963, 5) == "0ECWV"
  {
    NoDigits();
    hide Digits;
    AppendDigit(0, 1, 0, "", '0', "0");
    AppendDigit(14, 2, 0, "0", 'E', "0E");
    AppendDigit(460, 3, 14, "0E", 'C', "0EC");
    AppendDigit(14748, 4, 460, "0EC", 'W', "0ECW");
    AppendDigit(471963, 5, 14748, "0ECW", 'V', "0ECWV");
  }

  lemma NewYorkDigits()
    ensures Digits(15836467170153, 10) == "0ECWVG02V9"
  {
    NewYorkFirstDigits();
    hide Digits;
    AppendDigit(15102832, 6, 471963, "0ECWV", 'G', "0ECWVG");
    AppendDigit(483290624, 7, 15102832, "0ECWVG", '0', "0ECWVG0");
    AppendDigit(15465299970, 8, 483290624, "0ECWVG0", '2', "0ECWVG02");
    AppendDigit(494889599067, 9, 15465299970, "0ECWVG02", 'V', "0ECWVG02V");
    AppendDigit(15836467170153, 10, 494889599067, "0ECWVG02V", '9', "0ECWVG02V9");
  }

  // Latitude 40.7128, longitude -74.006: face 3.
  lemma NewYorkVector()
    ensures HashOf(3, Cell(1421263, 2023382)) == "0ECWVG02V9"
  {
    NewYorkIndex();
    NewYorkDigits();
    hide Index, Digits;
  }
}
