/** The table `crc_table` of `crc32.h`, which `get_crc_table` gives the cipher, line by line as it stands there. */
module CrcTables {
  import opened ZipKeys
  import opened ZipCipher

  function CrcLine(n: nat): (line: seq<bv32>)
    ensures |line| == if n < 51 then 5 else 1
  {
    match n
    case 0 => [0x00000000, 0x77073096, 0xee0e612c, 0x990951ba, 0x076dc419]
    case 1 => [0x706af48f, 0xe963a535, 0x9e6495a3, 0x0edb8832, 0x79dcb8a4]
    case 2 => [0xe0d5e91e, 0x97d2d988, 0x09b64c2b, 0x7eb17cbd, 0xe7b82d07]
    case 3 => [0x90bf1d91, 0x1db71064, 0x6ab020f2, 0xf3b97148, 0x84be41de]
    case 4 => [0x1adad47d, 0x6ddde4eb, 0xf4d4b551, 0x83d385c7, 0x136c9856]
    case 5 => [0x646ba8c0, 0xfd62f97a, 0x8a65c9ec, 0x14015c4f, 0x63066cd9]
    case 6 => [0xfa0f3d63, 0x8d080df5, 0x3b6e20c8, 0x4c69105e, 0xd56041e4]
    case 7 => [0xa2677172, 0x3c03e4d1, 0x4b04d447, 0xd20d85fd, 0xa50ab56b]
    case 8 => [0x35b5a8fa, 0x42b2986c, 0xdbbbc9d6, 0xacbcf940, 0x32d86ce3]
    case 9 => [0x45df5c75, 0xdcd60dcf, 0xabd13d59, 0x26d930ac, 0x51de003a]
    case 10 => [0xc8d75180, 0xbfd06116, 0x21b4f4b5, 0x56b3c423, 0xcfba9599]
    case 11 => [0xb8bda50f, 0x2802b89e, 0x5f058808, 0xc60cd9b2, 0xb10be924]
    case 12 => [0x2f6f7c87, 0x58684c11, 0xc1611dab, 0xb6662d3d, 0x76dc4190]
    case 13 => [0x01db7106, 0x98d220bc, 0xefd5102a, 0x71b18589, 0x06b6b51f]
    case 14 => [0x9fbfe4a5, 0xe8b8d433, 0x7807c9a2, 0x0f00f934, 0x9609a88e]
    case 15 => [0xe10e9818, 0x7f6a0dbb, 0x086d3d2d, 0x91646c97, 0xe6635c01]
    case 16 => [0x6b6b51f4, 0x1c6c6162, 0x856530d8, 0xf262004e, 0x6c0695ed]
    case 17 => [0x1b01a57b, 0x8208f4c1, 0xf50fc457, 0x65b0d9c6, 0x12b7e950]
    case 18 => [0x8bbeb8ea, 0xfcb9887c, 0x62dd1ddf, 0x15da2d49, 0x8cd37cf3]
    case 19 => [0xfbd44c65, 0x4db26158, 0x3ab551ce, 0xa3bc0074, 0xd4bb30e2]
    case 20 => [0x4adfa541, 0x3dd895d7, 0xa4d1c46d, 0xd3d6f4fb, 0x4369e96a]
    case 21 => [0x346ed9fc, 0xad678846, 0xda60b8d0, 0x44042d73, 0x33031de5]
    case 22 => [0xaa0a4c5f, 0xdd0d7cc9, 0x5005713c, 0x270241aa, 0xbe0b1010]
    case 23 => [0xc90c2086, 0x5768b525, 0x206f85b3, 0xb966d409, 0xce61e49f]
    case 24 => [0x5edef90e, 0x29d9c998, 0xb0d09822, 0xc7d7a8b4, 0x59b33d17]
    case 25 => [0x2eb40d81, 0xb7bd5c3b, 0xc0ba6cad, 0xedb88320, 0x9abfb3b6]
    case 26 => [0x03b6e20c, 0x74b1d29a, 0xead54739, 0x9dd277af, 0x04db2615]
    case 27 => [0x73dc1683, 0xe3630b12, 0x94643b84, 0x0d6d6a3e, 0x7a6a5aa8]
    case 28 => [0xe40ecf0b, 0x9309ff9d, 0x0a00ae27, 0x7d079eb1, 0xf00f9344]
    case 29 => [0x8708a3d2, 0x1e01f268, 0x6906c2fe, 0xf762575d, 0x806567cb]
    case 30 => [0x196c3671, 0x6e6b06e7, 0xfed41b76, 0x89d32be0, 0x10da7a5a]
    case 31 => [0x67dd4acc, 0xf9b9df6f, 0x8ebeeff9, 0x17b7be43, 0x60b08ed5]
    case 32 => [0xd6d6a3e8, 0xa1d1937e, 0x38d8c2c4, 0x4fdff252, 0xd1bb67f1]
    case 33 => [0xa6bc5767, 0x3fb506dd, 0x48b2364b, 0xd80d2bda, 0xaf0a1b4c]
    case 34 => [0x36034af6, 0x41047a60, 0xdf60efc3, 0xa867df55, 0x316e8eef]
    case 35 => [0x4669be79, 0xcb61b38c, 0xbc66831a, 0x256fd2a0, 0x5268e236]
    case 36 => [0xcc0c7795, 0xbb0b4703, 0x220216b9, 0x5505262f, 0xc5ba3bbe]
    case 37 => [0xb2bd0b28, 0x2bb45a92, 0x5cb36a04, 0xc2d7ffa7, 0xb5d0cf31]
    case 38 => [0x2cd99e8b, 0x5bdeae1d, 0x9b64c2b0, 0xec63f226, 0x756aa39c]
    case 39 => [0x026d930a, 0x9c0906a9, 0xeb0e363f, 0x72076785, 0x05005713]
    case 40 => [0x95bf4a82, 0xe2b87a14, 0x7bb12bae, 0x0cb61b38, 0x92d28e9b]
    case 41 => [0xe5d5be0d, 0x7cdcefb7, 0x0bdbdf21, 0x86d3d2d4, 0xf1d4e242]
    case 42 => [0x68ddb3f8, 0x1fda836e, 0x81be16cd, 0xf6b9265b, 0x6fb077e1]
    case 43 => [0x18b74777, 0x88085ae6, 0xff0f6a70, 0x66063bca, 0x11010b5c]
    case 44 => [0x8f659eff, 0xf862ae69, 0x616bffd3, 0x166ccf45, 0xa00ae278]
    case 45 => [0xd70dd2ee, 0x4e048354, 0x3903b3c2, 0xa7672661, 0xd06016f7]
    case 46 => [0x4969474d, 0x3e6e77db, 0xaed16a4a, 0xd9d65adc, 0x40df0b66]
    case 47 => [0x37d83bf0, 0xa9bcae53, 0xdebb9ec5, 0x47b2cf7f, 0x30b5ffe9]
    case 48 => [0xbdbdf21c, 0xcabac28a, 0x53b39330, 0x24b4a3a6, 0xbad03605]
    case 49 => [0xcdd70693, 0x54de5729, 0x23d967bf, 0xb3667a2e, 0xc4614ab8]
    case 50 => [0x5d681b02, 0x2a6f2b94, 0xb40bbe37, 0xc30c8ea1, 0x5a05df1b]
    case _ => [0x2d02ef8d]
  }

  /** The entry that bit steps give the index `i`. */
  function Steps(i: nat): bv32
    requires i < 256
  {
    BitSteps(Word(i), BITS)
  }

  /** `s` holds all those entries. */
  ghost predicate AllSteps(s: seq<bv32>) {
    |s| == 256 && forall i {:trigger Steps(i)} | 0 <= i < 256 :: s[i] == Steps(i)
  }

  // A line of the table at a time; all of it at once is too much.
  lemma CrcLine0(s: seq<bv32>) requires AllSteps(s) ensures CrcLine(0) == [s[0], s[1], s[2], s[3], s[4]]
  { assert CrcLine(0) == [Steps(0), Steps(1), Steps(2), Steps(3), Steps(4)]; }
  lemma CrcLine1(s: seq<bv32>) requires AllSteps(s) ensures CrcLine(1) == [s[5], s[6], s[7], s[8], s[9]]
  { assert CrcLine(1) == [Steps(5), Steps(6), Steps(7), Steps(8), Steps(9)]; }
  lemma CrcLine2(s: seq<bv32>) requires AllSteps(s) ensures CrcLine(2) == [s[10], s[11], s[12], s[13], s[14]]
  { assert CrcLine(2) == [Steps(10), Steps(11), Steps(12), Steps(13), Steps(14)]; }
  lemma CrcLine3(s: seq<bv32>) requires AllSteps(s) ensures CrcLine(3) == [s[15], s[16], s[17], s[18], s[19]]
  { assert CrcLine(3) == [Steps(15), Steps(16), Steps(17), Steps(18), Steps(19)]; }
  lemma CrcLine4(s: seq<bv32>) requires AllSteps(s) ensures CrcLine(4) == [s[20], s[21], s[22], s[23], s[24]]
  { assert CrcLine(4) == [Steps(20), Steps(21), Steps(22), Steps(23), Steps(24)]; }
  lemma CrcLine5(s: seq<bv32>) requires AllSteps(s) ensures CrcLine(5) == [s[25], s[26], s[27], s[28], s[29]]
  { assert CrcLine(5) == [Steps(25), Steps(26), Steps(27), Steps(28), Steps(29)]; }
  lemma CrcLine6(s: seq<bv32>) requires AllSteps(s) ensures CrcLine(6) == [s[30], s[31], s[32], s[33], s[34]]
  { assert CrcLine(6) == [Steps(30), Steps(31), Steps(32), Steps(33), Steps(34)]; }
  lemma CrcLine7(s: seq<bv32>) requires AllSteps(s) ensures CrcLine(7) == [s[35], s[36], s[37], s[38], s[39]]
  { assert CrcLine(7) == [Steps(35), Steps(36), Steps(37), Steps(38), Steps(39)]; }
  lemma CrcLine8(s: seq<bv32>) requires AllSteps(s) ensures CrcLine(8) == [s[40], s[41], s[42], s[43], s[44]]
  { assert CrcLine(8) == [Steps(40), Steps(41), Steps(42), Steps(43), Steps(44)]; }
  lemma CrcLine9(s: seq<bv32>) requires AllSteps(s) ensures CrcLine(9) == [s[45], s[46], s[47], s[48], s[49]]
  { assert CrcLine(9) == [Steps(45), Steps(46), Steps(47), Steps(48), Steps(49)]; }
  lemma CrcLine10(s: seq<bv32>) requires AllSteps(s) ensures CrcLine(10) == [s[50], s[51], s[52], s[53], s[54]]
  { assert CrcLine(10) == [Steps(50), Steps(51), Steps(52), Steps(53), Steps(54)]; }
  lemma CrcLine11(s: seq<bv32>) requires AllSteps(s) ensures CrcLine(11) == [s[55], s[56], s[57], s[58], s[59]]
  { assert CrcLine(11) == [Steps(55), Steps(56), Steps(57), Steps(58), Steps(59)]; }
  lemma CrcLine12(s: seq<bv32>) requires AllSteps(s) ensures CrcLine(12) == [s[60], s[61], s[62], s[63], s[64]]
  { assert CrcLine(12) == [Steps(60), Steps(61), Steps(62), Steps(63), Steps(64)]; }
  lemma CrcLine13(s: seq<bv32>) requires AllSteps(s) ensures CrcLine(13) == [s[65], s[66], s[67], s[68], s[69]]
  { assert CrcLine(13) == [Steps(65), Steps(66), Steps(67), Steps(68), Steps(69)]; }
  lemma CrcLine14(s: seq<bv32>) requires AllSteps(s) ensures CrcLine(14) == [s[70], s[71], s[72], s[73], s[74]]
  { assert CrcLine(14) == [Steps(70), Steps(71), Steps(72), Steps(73), Steps(74)]; }
  lemma CrcLine15(s: seq<bv32>) requires AllSteps(s) ensures CrcLine(15) == [s[75], s[76], s[77], s[78], s[79]]
  { assert CrcLine(15) == [Steps(75), Steps(76), Steps(77), Steps(78), Steps(79)]; }
  lemma CrcLine16(s: seq<bv32>) requires AllSteps(s) ensures CrcLine(16) == [s[80], s[81], s[82], s[83], s[84]]
  { assert CrcLine(16) == [Steps(80), Steps(81), Steps(82), Steps(83), Steps(84)]; }
  lemma CrcLine17(s: seq<bv32>) requires AllSteps(s) ensures CrcLine(17) == [s[85], s[86], s[87], s[88], s[89]]
  { assert CrcLine(17) == [Steps(85), Steps(86), Steps(87), Steps(88), Steps(89)]; }
  lemma CrcLine18(s: seq<bv32>) requires AllSteps(s) ensures CrcLine(18) == [s[90], s[91], s[92], s[93], s[94]]
  { assert CrcLine(18) == [Steps(90), Steps(91), Steps(92), Steps(93), Steps(94)]; }
  lemma CrcLine19(s: seq<bv32>) requires AllSteps(s) ensures CrcLine(19) == [s[95], s[96], s[97], s[98], s[99]]
  { assert CrcLine(19) == [Steps(95), Steps(96), Steps(97), Steps(98), Steps(99)]; }
  lemma CrcLine20(s: seq<bv32>) requires AllSteps(s) ensures CrcLine(20) == [s[100], s[101], s[102], s[103], s[104]]
  { assert CrcLine(20) == [Steps(100), Steps(101), Steps(102), Steps(103), Steps(104)]; }
  lemma CrcLine21(s: seq<bv32>) requires AllSteps(s) ensures CrcLine(21) == [s[105], s[106], s[107], s[108], s[109]]
  { assert CrcLine(21) == [Steps(105), Steps(106), Steps(107), Steps(108), Steps(109)]; }
  lemma CrcLine22(s: seq<bv32>) requires AllSteps(s) ensures CrcLine(22) == [s[110], s[111], s[112], s[113], s[114]]
  { assert CrcLine(22) == [Steps(110), Steps(111), Steps(112), Steps(113), Steps(114)]; }
  lemma CrcLine23(s: seq<bv32>) requires AllSteps(s) ensures CrcLine(23) == [s[115], s[116], s[117], s[118], s[119]]
  { assert CrcLine(23) == [Steps(115), Steps(116), Steps(117), Steps(118), Steps(119)]; }
  lemma CrcLine24(s: seq<bv32>) requires AllSteps(s) ensures CrcLine(24) == [s[120], s[121], s[122], s[123], s[124]]
  { assert CrcLine(24) == [Steps(120), Steps(121), Steps(122), Steps(123), Steps(124)]; }
  lemma CrcLine25(s: seq<bv32>) requires AllSteps(s) ensures CrcLine(25) == [s[125], s[126], s[127], s[128], s[129]]
  { assert CrcLine(25) == [Steps(125), Steps(126), Steps(127), Steps(128), Steps(129)]; }
  lemma CrcLine26(s: seq<bv32>) requires AllSteps(s) ensures CrcLine(26) == [s[130], s[131], s[132], s[133], s[134]]
  { assert CrcLine(26) == [Steps(130), Steps(131), Steps(132), Steps(133), Steps(134)]; }
  lemma CrcLine27(s: seq<bv32>) requires AllSteps(s) ensures CrcLine(27) == [s[135], s[136], s[137], s[138], s[139]]
  { assert CrcLine(27) == [Steps(135), Steps(136), Steps(137), Steps(138), Steps(139)]; }
  lemma CrcLine28(s: seq<bv32>) requires AllSteps(s) ensures CrcLine(28) == [s[140], s[141], s[142], s[143], s[144]]
  { assert CrcLine(28) == [Steps(140), Steps(141), Steps(142), Steps(143), Steps(144)]; }
  lemma CrcLine29(s: seq<bv32>) requires AllSteps(s) ensures CrcLine(29) == [s[145], s[146], s[147], s[148], s[149]]
  { assert CrcLine(29) == [Steps(145), Steps(146), Steps(147), Steps(148), Steps(149)]; }
  lemma CrcLine30(s: seq<bv32>) requires AllSteps(s) ensures CrcLine(30) == [s[150], s[151], s[152], s[153], s[154]]
  { assert CrcLine(30) == [Steps(150), Steps(151), Steps(152), Steps(153), Steps(154)]; }
  lemma CrcLine31(s: seq<bv32>) requires AllSteps(s) ensures CrcLine(31) == [s[155], s[156], s[157], s[158], s[159]]
  { assert CrcLine(31) == [Steps(155), Steps(156), Steps(157), Steps(158), Steps(159)]; }
  lemma CrcLine32(s: seq<bv32>) requires AllSteps(s) ensures CrcLine(32) == [s[160], s[161], s[162], s[163], s[164]]
  { assert CrcLine(32) == [Steps(160), Steps(161), Steps(162), Steps(163), Steps(164)]; }
  lemma CrcLine33(s: seq<bv32>) requires AllSteps(s) ensures CrcLine(33) == [s[165], s[166], s[167], s[168], s[169]]
  { assert CrcLine(33) == [Steps(165), Steps(166), Steps(167), Steps(168), Steps(169)]; }
  lemma CrcLine34(s: seq<bv32>) requires AllSteps(s) ensures CrcLine(34) == [s[170], s[171], s[172], s[173], s[174]]
  { assert CrcLine(34) == [Steps(170), Steps(171), Steps(172), Steps(173), Steps(174)]; }
  lemma CrcLine35(s: seq<bv32>) requires AllSteps(s) ensures CrcLine(35) == [s[175], s[176], s[177], s[178], s[179]]
  { assert CrcLine(35) == [Steps(175), Steps(176), Steps(177), Steps(178), Steps(179)]; }
  lemma CrcLine36(s: seq<bv32>) requires AllSteps(s) ensures CrcLine(36) == [s[180], s[181], s[182], s[183], s[184]]
  { assert CrcLine(36) == [Steps(180), Steps(181), Steps(182), Steps(183), Steps(184)]; }
  lemma CrcLine37(s: seq<bv32>) requires AllSteps(s) ensures CrcLine(37) == [s[185], s[186], s[187], s[188], s[189]]
  { assert CrcLine(37) == [Steps(185), Steps(186), Steps(187), Steps(188), Steps(189)]; }
  lemma CrcLine38(s: seq<bv32>) requires AllSteps(s) ensures CrcLine(38) == [s[190], s[191], s[192], s[193], s[194]]
  { assert CrcLine(38) == [Steps(190), Steps(191), Steps(192), Steps(193), Steps(194)]; }
  lemma CrcLine39(s: seq<bv32>) requires AllSteps(s) ensures CrcLine(39) == [s[195], s[196], s[197], s[198], s[199]]
  { assert CrcLine(39) == [Steps(195), Steps(196), Steps(197), Steps(198), Steps(199)]; }
  lemma CrcLine40(s: seq<bv32>) requires AllSteps(s) ensures CrcLine(40) == [s[200], s[201], s[202], s[203], s[204]]
  { assert CrcLine(40) == [Steps(200), Steps(201), Steps(202), Steps(203), Steps(204)]; }
  lemma CrcLine41(s: seq<bv32>) requires AllSteps(s) ensures CrcLine(41) == [s[205], s[206], s[207], s[208], s[209]]
  { assert CrcLine(41) == [Steps(205), Steps(206), Steps(207), Steps(208), Steps(209)]; }
  lemma CrcLine42(s: seq<bv32>) requires AllSteps(s) ensures CrcLine(42) == [s[210], s[211], s[212], s[213], s[214]]
  { assert CrcLine(42) == [Steps(210), Steps(211), Steps(212), Steps(213), Steps(214)]; }
  lemma CrcLine43(s: seq<bv32>) requires AllSteps(s) ensures CrcLine(43) == [s[215], s[216], s[217], s[218], s[219]]
  { assert CrcLine(43) == [Steps(215), Steps(216), Steps(217), Steps(218), Steps(219)]; }
  lemma CrcLine44(s: seq<bv32>) requires AllSteps(s) ensures CrcLine(44) == [s[220], s[221], s[222], s[223], s[224]]
  { assert CrcLine(44) == [Steps(220), Steps(221), Steps(222), Steps(223), Steps(224)]; }
  lemma CrcLine45(s: seq<bv32>) requires AllSteps(s) ensures CrcLine(45) == [s[225], s[226], s[227], s[228], s[229]]
  { assert CrcLine(45) == [Steps(225), Steps(226), Steps(227), Steps(228), Steps(229)]; }
  lemma CrcLine46(s: seq<bv32>) requires AllSteps(s) ensures CrcLine(46) == [s[230], s[231], s[232], s[233], s[234]]
  { assert CrcLine(46) == [Steps(230), Steps(231), Steps(232), Steps(233), Steps(234)]; }
  lemma CrcLine47(s: seq<bv32>) requires AllSteps(s) ensures CrcLine(47) == [s[235], s[236], s[237], s[238], s[239]]
  { assert CrcLine(47) == [Steps(235), Steps(236), Steps(237), Steps(238), Steps(239)]; }
  lemma CrcLine48(s: seq<bv32>) requires AllSteps(s) ensures CrcLine(48) == [s[240], s[241], s[242], s[243], s[244]]
  { assert CrcLine(48) == [Steps(240), Steps(241), Steps(242), Steps(243), Steps(244)]; }
  lemma CrcLine49(s: seq<bv32>) requires AllSteps(s) ensures CrcLine(49) == [s[245], s[246], s[247], s[248], s[249]]
  { assert CrcLine(49) == [Steps(245), Steps(246), Steps(247), Steps(248), Steps(249)]; }
  lemma CrcLine50(s: seq<bv32>) requires AllSteps(s) ensures CrcLine(50) == [s[250], s[251], s[252], s[253], s[254]]
  { assert CrcLine(50) == [Steps(250), Steps(251), Steps(252), Steps(253), Steps(254)]; }
  lemma CrcLine51(s: seq<bv32>) requires AllSteps(s) ensures CrcLine(51) == [s[255]]
  { assert CrcLine(51) == [Steps(255)]; }

  lemma LinesFrom0(s: seq<bv32>, n: nat, k: nat)
    requires AllSteps(s) && 0 <= n < 13 && k < |CrcLine(n)|
    ensures 5 * n + k < 256 && CrcLine(n)[k] == s[5 * n + k]
  {
    match n {
      case 0 => CrcLine0(s);
      case 1 => CrcLine1(s);
      case 2 => CrcLine2(s);
      case 3 => CrcLine3(s);
      case 4 => CrcLine4(s);
      case 5 => CrcLine5(s);
      case 6 => CrcLine6(s);
      case 7 => CrcLine7(s);
      case 8 => CrcLine8(s);
      case 9 => CrcLine9(s);
      case 10 => CrcLine10(s);
      case 11 => CrcLine11(s);
      case _ => CrcLine12(s);
    }
  }

  lemma LinesFrom13(s: seq<bv32>, n: nat, k: nat)
    requires AllSteps(s) && 13 <= n < 26 && k < |CrcLine(n)|
    ensures 5 * n + k < 256 && CrcLine(n)[k] == s[5 * n + k]
  {
    match n {
      case 13 => CrcLine13(s);
      case 14 => CrcLine14(s);
      case 15 => CrcLine15(s);
      case 16 => CrcLine16(s);
      case 17 => CrcLine17(s);
      case 18 => CrcLine18(s);
      case 19 => CrcLine19(s);
      case 20 => CrcLine20(s);
      case 21 => CrcLine21(s);
      case 22 => CrcLine22(s);
      case 23 => CrcLine23(s);
      case 24 => CrcLine24(s);
      case _ => CrcLine25(s);
    }
  }

  lemma LinesFrom26(s: seq<bv32>, n: nat, k: nat)
    requires AllSteps(s) && 26 <= n < 39 && k < |CrcLine(n)|
    ensures 5 * n + k < 256 && CrcLine(n)[k] == s[5 * n + k]
  {
    match n {
      case 26 => CrcLine26(s);
      case 27 => CrcLine27(s);
      case 28 => CrcLine28(s);
      case 29 => CrcLine29(s);
      case 30 => CrcLine30(s);
      case 31 => CrcLine31(s);
      case 32 => CrcLine32(s);
      case 33 => CrcLine33(s);
      case 34 => CrcLine34(s);
      case 35 => CrcLine35(s);
      case 36 => CrcLine36(s);
      case 37 => CrcLine37(s);
      case _ => CrcLine38(s);
    }
  }

  lemma LinesFrom39(s: seq<bv32>, n: nat, k: nat)
    requires AllSteps(s) && 39 <= n < 52 && k < |CrcLine(n)|
    ensures 5 * n + k < 256 && CrcLine(n)[k] == s[5 * n + k]
  {
    match n {
      case 39 => CrcLine39(s);
      case 40 => CrcLine40(s);
      case 41 => CrcLine41(s);
      case 42 => CrcLine42(s);
      case 43 => CrcLine43(s);
      case 44 => CrcLine44(s);
      case 45 => CrcLine45(s);
      case 46 => CrcLine46(s);
      case 47 => CrcLine47(s);
      case 48 => CrcLine48(s);
      case 49 => CrcLine49(s);
      case 50 => CrcLine50(s);
      case _ => CrcLine51(s);
    }
  }

  lemma CrcEntry(s: seq<bv32>, n: nat, k: nat)
    requires AllSteps(s) && n < 52 && k < |CrcLine(n)|
    ensures 5 * n + k < 256 && CrcLine(n)[k] == s[5 * n + k]
  {
    if n < 13 {
      LinesFrom0(s, n, k);
    } else if n < 26 {
      LinesFrom13(s, n, k);
    } else if n < 39 {
      LinesFrom26(s, n, k);
    } else {
      LinesFrom39(s, n, k);
    }
  }

  function Table(): (t: CrcTable)
    ensures forall i | 0 <= i < 256 :: t[i] == CrcLine(i / 5)[i % 5]
  {
    seq(256, i requires 0 <= i < 256 => CrcLine(i / 5)[i % 5])
  }

  /** The numbers in the table are the ones that save the bit steps. */
  lemma TableIsCrc()
    ensures IsCrcTable(Table())
  {
    var s := seq(256, i requires 0 <= i < 256 => Steps(i));
    forall i | 0 <= i < 256 ensures Table()[i] == BitSteps(Word(i), BITS) {
      CrcEntry(s, i / 5, i % 5);
      assert 5 * (i / 5) + i % 5 == i && s[i] == Steps(i);
    }
  }

  /** With this table, the code's cipher is the standard's, for every password and text. */
  lemma CodeIsStandard(password: seq<bv8>, plain: seq<bv8>)
    ensures Encoded(Table(), PasswordKeys(Table(), password), plain)
         == Encoded32(Keyed32(INITIAL32, CString(password)), plain)
  {
    TableIsCrc();
    PasswordCipherAgrees(Table(), password, plain);
  }
}
