/** The table of the Pearson hash, looked up by halving the index, and its inverse. */
module PearsonTable {
  import opened Bytes

  function T(x: byte): byte {
    if x < 0x80 then
      if x < 0x40 then
        if x < 0x20 then
          if x < 0x10 then
            if x < 0x08 then
              if x < 0x04 then
                if x < 0x02 then if x < 0x01 then 0x01 else 0x57 else if x < 0x03 then 0x31 else 0x0C
              else
                if x < 0x06 then if x < 0x05 then 0xB0 else 0xB2 else if x < 0x07 then 0x66 else 0xA6
            else
              if x < 0x0C then
                if x < 0x0A then if x < 0x09 then 0x79 else 0xC1 else if x < 0x0B then 0x06 else 0x54
              else
                if x < 0x0E then if x < 0x0D then 0xF9 else 0xE6 else if x < 0x0F then 0x2C else 0xA3
          else
            if x < 0x18 then
              if x < 0x14 then
                if x < 0x12 then if x < 0x11 then 0x0E else 0xC5 else if x < 0x13 then 0xD5 else 0xB5
              else
                if x < 0x16 then if x < 0x15 then 0xA1 else 0x55 else if x < 0x17 then 0xDA else 0x50
            else
              if x < 0x1C then
                if x < 0x1A then if x < 0x19 then 0x40 else 0xEF else if x < 0x1B then 0x18 else 0xE2
              else
                if x < 0x1E then if x < 0x1D then 0xEC else 0x8E else if x < 0x1F then 0x26 else 0xC8
        else
          if x < 0x30 then
            if x < 0x28 then
              if x < 0x24 then
                if x < 0x22 then if x < 0x21 then 0x6E else 0xB1 else if x < 0x23 then 0x68 else 0x67
              else
                if x < 0x26 then if x < 0x25 then 0x8D else 0xFD else if x < 0x27 then 0xFF else 0x32
            else
              if x < 0x2C then
                if x < 0x2A then if x < 0x29 then 0x4D else 0x65 else if x < 0x2B then 0x51 else 0x12
              else
                if x < 0x2E then if x < 0x2D then 0x2D else 0x60 else if x < 0x2F then 0x1F else 0xDE
          else
            if x < 0x38 then
              if x < 0x34 then
                if x < 0x32 then if x < 0x31 then 0x19 else 0x6B else if x < 0x33 then 0xBE else 0x46
              else
                if x < 0x36 then if x < 0x35 then 0x56 else 0xED else if x < 0x37 then 0xF0 else 0x22
            else
              if x < 0x3C then
                if x < 0x3A then if x < 0x39 then 0x48 else 0xF2 else if x < 0x3B then 0x14 else 0xD6
              else
                if x < 0x3E then if x < 0x3D then 0xF4 else 0xE3 else if x < 0x3F then 0x95 else 0xEB
      else
        if x < 0x60 then
          if x < 0x50 then
            if x < 0x48 then
              if x < 0x44 then
                if x < 0x42 then if x < 0x41 then 0x61 else 0xEA else if x < 0x43 then 0x39 else 0x16
              else
                if x < 0x46 then if x < 0x45 then 0x3C else 0xFA else if x < 0x47 then 0x52 else 0xAF
            else
              if x < 0x4C then
                if x < 0x4A then if x < 0x49 then 0xD0 else 0x05 else if x < 0x4B then 0x7F else 0xC7
              else
                if x < 0x4E then if x < 0x4D then 0x6F else 0x3E else if x < 0x4F then 0x87 else 0xF8
          else
            if x < 0x58 then
              if x < 0x54 then
                if x < 0x52 then if x < 0x51 then 0xAE else 0xA9 else if x < 0x53 then 0xD3 else 0x3A
              else
                if x < 0x56 then if x < 0x55 then 0x42 else 0x9A else if x < 0x57 then 0x6A else 0xC3
            else
              if x < 0x5C then
                if x < 0x5A then if x < 0x59 then 0xF5 else 0xAB else if x < 0x5B then 0x11 else 0xBB
              else
                if x < 0x5E then if x < 0x5D then 0xB6 else 0xB3 else if x < 0x5F then 0x00 else 0xF3
        else
          if x < 0x70 then
            if x < 0x68 then
              if x < 0x64 then
                if x < 0x62 then if x < 0x61 then 0x84 else 0x38 else if x < 0x63 then 0x94 else 0x4B
              else
                if x < 0x66 then if x < 0x65 then 0x80 else 0x85 else if x < 0x67 then 0x9E else 0x64
            else
              if x < 0x6C then
                if x < 0x6A then if x < 0x69 then 0x82 else 0x7E else if x < 0x6B then 0x5B else 0x0D
              else
                if x < 0x6E then if x < 0x6D then 0x99 else 0xF6 else if x < 0x6F then 0xD8 else 0xDB
          else
            if x < 0x78 then
              if x < 0x74 then
                if x < 0x72 then if x < 0x71 then 0x77 else 0x44 else if x < 0x73 then 0xDF else 0x4E
              else
                if x < 0x76 then if x < 0x75 then 0x53 else 0x58 else if x < 0x77 then 0xC9 else 0x63
            else
              if x < 0x7C then
                if x < 0x7A then if x < 0x79 then 0x7A else 0x0B else if x < 0x7B then 0x5C else 0x20
              else
                if x < 0x7E then if x < 0x7D then 0x88 else 0x72 else if x < 0x7F then 0x34 else 0x0A
    else
      if x < 0xC0 then
        if x < 0xA0 then
          if x < 0x90 then
            if x < 0x88 then
              if x < 0x84 then
                if x < 0x82 then if x < 0x81 then 0x8A else 0x1E else if x < 0x83 then 0x30 else 0xB7
              else
                if x < 0x86 then if x < 0x85 then 0x9C else 0x23 else if x < 0x87 then 0x3D else 0x1A
            else
              if x < 0x8C then
                if x < 0x8A then if x < 0x89 then 0x8F else 0x4A else if x < 0x8B then 0xFB else 0x5E
              else
                if x < 0x8E then if x < 0x8D then 0x81 else 0xA2 else if x < 0x8F then 0x3F else 0x98
          else
            if x < 0x98 then
              if x < 0x94 then
                if x < 0x92 then if x < 0x91 then 0xAA else 0x07 else if x < 0x93 then 0x73 else 0xA7
              else
                if x < 0x96 then if x < 0x95 then 0xF1 else 0xCE else if x < 0x97 then 0x03 else 0x96
            else
              if x < 0x9C then
                if x < 0x9A then if x < 0x99 then 0x37 else 0x3B else if x < 0x9B then 0x97 else 0xDC
              else
                if x < 0x9E then if x < 0x9D then 0x5A else 0x35 else if x < 0x9F then 0x17 else 0x83
        else
          if x < 0xB0 then
            if x < 0xA8 then
              if x < 0xA4 then
                if x < 0xA2 then if x < 0xA1 then 0x7D else 0xAD else if x < 0xA3 then 0x0F else 0xEE
              else
                if x < 0xA6 then if x < 0xA5 then 0x4F else 0x5F else if x < 0xA7 then 0x59 else 0x10
            else
              if x < 0xAC then
                if x < 0xAA then if x < 0xA9 then 0x69 else 0x89 else if x < 0xAB then 0xE1 else 0xE0
              else
                if x < 0xAE then if x < 0xAD then 0xD9 else 0xA0 else if x < 0xAF then 0x25 else 0x7B
          else
            if x < 0xB8 then
              if x < 0xB4 then
                if x < 0xB2 then if x < 0xB1 then 0x76 else 0x49 else if x < 0xB3 then 0x02 else 0x9D
              else
                if x < 0xB6 then if x < 0xB5 then 0x2E else 0x74 else if x < 0xB7 then 0x09 else 0x91
            else
              if x < 0xBC then
                if x < 0xBA then if x < 0xB9 then 0x86 else 0xE4 else if x < 0xBB then 0xCF else 0xD4
              else
                if x < 0xBE then if x < 0xBD then 0xCA else 0xD7 else if x < 0xBF then 0x45 else 0xE5
      else
        if x < 0xE0 then
          if x < 0xD0 then
            if x < 0xC8 then
              if x < 0xC4 then
                if x < 0xC2 then if x < 0xC1 then 0x1B else 0xBC else if x < 0xC3 then 0x43 else 0x7C
              else
                if x < 0xC6 then if x < 0xC5 then 0xA8 else 0xFC else if x < 0xC7 then 0x2A else 0x04
            else
              if x < 0xCC then
                if x < 0xCA then if x < 0xC9 then 0x1D else 0x6C else if x < 0xCB then 0x15 else 0xF7
              else
                if x < 0xCE then if x < 0xCD then 0x13 else 0xCD else if x < 0xCF then 0x27 else 0xCB
          else
            if x < 0xD8 then
              if x < 0xD4 then
                if x < 0xD2 then if x < 0xD1 then 0xE9 else 0x28 else if x < 0xD3 then 0xBA else 0x93
              else
                if x < 0xD6 then if x < 0xD5 then 0xC6 else 0xC0 else if x < 0xD7 then 0x9B else 0x21
            else
              if x < 0xDC then
                if x < 0xDA then if x < 0xD9 then 0xA4 else 0xBF else if x < 0xDB then 0x62 else 0xCC
              else
                if x < 0xDE then if x < 0xDD then 0xA5 else 0xB4 else if x < 0xDF then 0x75 else 0x4C
        else
          if x < 0xF0 then
            if x < 0xE8 then
              if x < 0xE4 then
                if x < 0xE2 then if x < 0xE1 then 0x8C else 0x24 else if x < 0xE3 then 0xD2 else 0xAC
              else
                if x < 0xE6 then if x < 0xE5 then 0x29 else 0x36 else if x < 0xE7 then 0x9F else 0x08
            else
              if x < 0xEC then
                if x < 0xEA then if x < 0xE9 then 0xB9 else 0xE8 else if x < 0xEB then 0x71 else 0xC4
              else
                if x < 0xEE then if x < 0xED then 0xE7 else 0x2F else if x < 0xEF then 0x92 else 0x78
          else
            if x < 0xF8 then
              if x < 0xF4 then
                if x < 0xF2 then if x < 0xF1 then 0x33 else 0x41 else if x < 0xF3 then 0x1C else 0x90
              else
                if x < 0xF6 then if x < 0xF5 then 0xFE else 0xDD else if x < 0xF7 then 0x5D else 0xBD
            else
              if x < 0xFC then
                if x < 0xFA then if x < 0xF9 then 0xC2 else 0x8B else if x < 0xFB then 0x70 else 0x2B
              else
                if x < 0xFE then if x < 0xFD then 0x47 else 0x6D else if x < 0xFF then 0xB8 else 0xD1
  }

  function Inv(x: byte): byte {
    if x < 0x80 then
      if x < 0x40 then
        if x < 0x20 then
          if x < 0x10 then
            if x < 0x08 then
              if x < 0x04 then
                if x < 0x02 then if x < 0x01 then 0x5E else 0x00 else if x < 0x03 then 0xB2 else 0x96
              else
                if x < 0x06 then if x < 0x05 then 0xC7 else 0x49 else if x < 0x07 then 0x0A else 0x91
            else
              if x < 0x0C then
                if x < 0x0A then if x < 0x09 then 0xE7 else 0xB6 else if x < 0x0B then 0x7F else 0x79
              else
                if x < 0x0E then if x < 0x0D then 0x03 else 0x6B else if x < 0x0F then 0x10 else 0xA2
          else
            if x < 0x18 then
              if x < 0x14 then
                if x < 0x12 then if x < 0x11 then 0xA7 else 0x5A else if x < 0x13 then 0x2B else 0xCC
              else
                if x < 0x16 then if x < 0x15 then 0x3A else 0xCA else if x < 0x17 then 0x43 else 0x9E
            else
              if x < 0x1C then
                if x < 0x1A then if x < 0x19 then 0x1A else 0x30 else if x < 0x1B then 0x87 else 0xC0
              else
                if x < 0x1E then if x < 0x1D then 0xF2 else 0xC8 else if x < 0x1F then 0x81 else 0x2E
        else
          if x < 0x30 then
            if x < 0x28 then
              if x < 0x24 then
                if x < 0x22 then if x < 0x21 then 0x7B else 0xD7 else if x < 0x23 then 0x37 else 0x85
              else
                if x < 0x26 then if x < 0x25 then 0xE1 else 0xAE else if x < 0x27 then 0x1E else 0xCE
            else
              if x < 0x2C then
                if x < 0x2A then if x < 0x29 then 0xD1 else 0xE4 else if x < 0x2B then 0xC6 else 0xFB
              else
                if x < 0x2E then if x < 0x2D then 0x0E else 0x2C else if x < 0x2F then 0xB4 else 0xED
          else
            if x < 0x38 then
              if x < 0x34 then
                if x < 0x32 then if x < 0x31 then 0x82 else 0x02 else if x < 0x33 then 0x27 else 0xF0
              else
                if x < 0x36 then if x < 0x35 then 0x7E else 0x9D else if x < 0x37 then 0xE5 else 0x98
            else
              if x < 0x3C then
                if x < 0x3A then if x < 0x39 then 0x61 else 0x42 else if x < 0x3B then 0x53 else 0x99
              else
                if x < 0x3E then if x < 0x3D then 0x44 else 0x86 else if x < 0x3F then 0x4D else 0x8E
      else
        if x < 0x60 then
          if x < 0x50 then
            if x < 0x48 then
              if x < 0x44 then
                if x < 0x42 then if x < 0x41 then 0x18 else 0xF1 else if x < 0x43 then 0x54 else 0xC2
              else
                if x < 0x46 then if x < 0x45 then 0x71 else 0xBE else if x < 0x47 then 0x33 else 0xFC
            else
              if x < 0x4C then
                if x < 0x4A then if x < 0x49 then 0x38 else 0xB1 else if x < 0x4B then 0x89 else 0x63
              else
                if x < 0x4E then if x < 0x4D then 0xDF else 0x28 else if x < 0x4F then 0x73 else 0xA4
          else
            if x < 0x58 then
              if x < 0x54 then
                if x < 0x52 then if x < 0x51 then 0x17 else 0x2A else if x < 0x53 then 0x46 else 0x74
              else
                if x < 0x56 then if x < 0x55 then 0x0B else 0x15 else if x < 0x57 then 0x34 else 0x01
            else
              if x < 0x5C then
                if x < 0x5A then if x < 0x59 then 0x75 else 0xA6 else if x < 0x5B then 0x9C else 0x6A
              else
                if x < 0x5E then if x < 0x5D then 0x7A else 0xF6 else if x < 0x5F then 0x8B else 0xA5
        else
          if x < 0x70 then
            if x < 0x68 then
              if x < 0x64 then
                if x < 0x62 then if x < 0x61 then 0x2D else 0x40 else if x < 0x63 then 0xDA else 0x77
              else
                if x < 0x66 then if x < 0x65 then 0x67 else 0x29 else if x < 0x67 then 0x06 else 0x23
            else
              if x < 0x6C then
                if x < 0x6A then if x < 0x69 then 0x22 else 0xA8 else if x < 0x6B then 0x56 else 0x31
              else
                if x < 0x6E then if x < 0x6D then 0xC9 else 0xFD else if x < 0x6F then 0x20 else 0x4C
          else
            if x < 0x78 then
              if x < 0x74 then
                if x < 0x72 then if x < 0x71 then 0xFA else 0xEA else if x < 0x73 then 0x7D else 0x92
              else
                if x < 0x76 then if x < 0x75 then 0xB5 else 0xDE else if x < 0x77 then 0xB0 else 0x70
            else
              if x < 0x7C then
                if x < 0x7A then if x < 0x79 then 0xEF else 0x08 else if x < 0x7B then 0x78 else 0xAF
              else
                if x < 0x7E then if x < 0x7D then 0xC3 else 0xA0 else if x < 0x7F then 0x69 else 0x4A
    else
      if x < 0xC0 then
        if x < 0xA0 then
          if x < 0x90 then
            if x < 0x88 then
              if x < 0x84 then
                if x < 0x82 then if x < 0x81 then 0x64 else 0x8C else if x < 0x83 then 0x68 else 0x9F
              else
                if x < 0x86 then if x < 0x85 then 0x60 else 0x65 else if x < 0x87 then 0xB8 else 0x4E
            else
              if x < 0x8C then
                if x < 0x8A then if x < 0x89 then 0x7C else 0xA9 else if x < 0x8B then 0x80 else 0xF9
              else
                if x < 0x8E then if x < 0x8D then 0xE0 else 0x24 else if x < 0x8F then 0x1D else 0x88
          else
            if x < 0x98 then
              if x < 0x94 then
                if x < 0x92 then if x < 0x91 then 0xF3 else 0xB7 else if x < 0x93 then 0xEE else 0xD3
              else
                if x < 0x96 then if x < 0x95 then 0x62 else 0x3E else if x < 0x97 then 0x97 else 0x9A
            else
              if x < 0x9C then
                if x < 0x9A then if x < 0x99 then 0x8F else 0x6C else if x < 0x9B then 0x55 else 0xD6
              else
                if x < 0x9E then if x < 0x9D then 0x84 else 0xB3 else if x < 0x9F then 0x66 else 0xE6
        else
          if x < 0xB0 then
            if x < 0xA8 then
              if x < 0xA4 then
                if x < 0xA2 then if x < 0xA1 then 0xAD else 0x14 else if x < 0xA3 then 0x8D else 0x0F
              else
                if x < 0xA6 then if x < 0xA5 then 0xD8 else 0xDC else if x < 0xA7 then 0x07 else 0x93
            else
              if x < 0xAC then
                if x < 0xAA then if x < 0xA9 then 0xC4 else 0x51 else if x < 0xAB then 0x90 else 0x59
              else
                if x < 0xAE then if x < 0xAD then 0xE3 else 0xA1 else if x < 0xAF then 0x50 else 0x47
          else
            if x < 0xB8 then
              if x < 0xB4 then
                if x < 0xB2 then if x < 0xB1 then 0x04 else 0x21 else if x < 0xB3 then 0x05 else 0x5D
              else
                if x < 0xB6 then if x < 0xB5 then 0xDD else 0x13 else if x < 0xB7 then 0x5C else 0x83
            else
              if x < 0xBC then
                if x < 0xBA then if x < 0xB9 then 0xFE else 0xE8 else if x < 0xBB then 0xD2 else 0x5B
              else
                if x < 0xBE then if x < 0xBD then 0xC1 else 0xF7 else if x < 0xBF then 0x32 else 0xD9
      else
        if x < 0xE0 then
          if x < 0xD0 then
            if x < 0xC8 then
              if x < 0xC4 then
                if x < 0xC2 then if x < 0xC1 then 0xD5 else 0x09 else if x < 0xC3 then 0xF8 else 0x57
              else
                if x < 0xC6 then if x < 0xC5 then 0xEB else 0x11 else if x < 0xC7 then 0xD4 else 0x4B
            else
              if x < 0xCC then
                if x < 0xCA then if x < 0xC9 then 0x1F else 0x76 else if x < 0xCB then 0xBC else 0xCF
              else
                if x < 0xCE then if x < 0xCD then 0xDB else 0xCD else if x < 0xCF then 0x95 else 0xBA
          else
            if x < 0xD8 then
              if x < 0xD4 then
                if x < 0xD2 then if x < 0xD1 then 0x48 else 0xFF else if x < 0xD3 then 0xE2 else 0x52
              else
                if x < 0xD6 then if x < 0xD5 then 0xBB else 0x12 else if x < 0xD7 then 0x3B else 0xBD
            else
              if x < 0xDC then
                if x < 0xDA then if x < 0xD9 then 0x6E else 0xAC else if x < 0xDB then 0x16 else 0x6F
              else
                if x < 0xDE then if x < 0xDD then 0x9B else 0xF5 else if x < 0xDF then 0x2F else 0x72
        else
          if x < 0xF0 then
            if x < 0xE8 then
              if x < 0xE4 then
                if x < 0xE2 then if x < 0xE1 then 0xAB else 0xAA else if x < 0xE3 then 0x1B else 0x3D
              else
                if x < 0xE6 then if x < 0xE5 then 0xB9 else 0xBF else if x < 0xE7 then 0x0D else 0xEC
            else
              if x < 0xEC then
                if x < 0xEA then if x < 0xE9 then 0xE9 else 0xD0 else if x < 0xEB then 0x41 else 0x3F
              else
                if x < 0xEE then if x < 0xED then 0x1C else 0x35 else if x < 0xEF then 0xA3 else 0x19
          else
            if x < 0xF8 then
              if x < 0xF4 then
                if x < 0xF2 then if x < 0xF1 then 0x36 else 0x94 else if x < 0xF3 then 0x39 else 0x5F
              else
                if x < 0xF6 then if x < 0xF5 then 0x3C else 0x58 else if x < 0xF7 then 0x6D else 0xCB
            else
              if x < 0xFC then
                if x < 0xFA then if x < 0xF9 then 0x4F else 0x0C else if x < 0xFB then 0x45 else 0x8A
              else
                if x < 0xFE then if x < 0xFD then 0xC5 else 0x25 else if x < 0xFF then 0xF4 else 0x26
  }

  lemma LowHalf(x: byte)
    requires x < 0x80
    ensures Inv(T(x)) == x
  {
  }

  lemma HighHalf(x: byte)
    requires x >= 0x80
    ensures Inv(T(x)) == x
  {
  }

  /** The table is a permutation of the bytes. */
  lemma Permutation(x: byte, y: byte)
    ensures T(x) == T(y) <==> x == y
  {
    hide T, Inv;
    if x < 0x80 { LowHalf(x); } else { HighHalf(x); }
    if y < 0x80 { LowHalf(y); } else { HighHalf(y); }
  }

  /** The table as it is written down, sixteen bytes a row. */
  function Row(r: nat): (s: seq<byte>)
    requires r < 16
    ensures |s| == 16
  {
    match r
    case 0 => [0x01, 0x57, 0x31, 0x0C, 0xB0, 0xB2, 0x66, 0xA6, 0x79, 0xC1, 0x06, 0x54, 0xF9, 0xE6, 0x2C, 0xA3]
    case 1 => [0x0E, 0xC5, 0xD5, 0xB5, 0xA1, 0x55, 0xDA, 0x50, 0x40, 0xEF, 0x18, 0xE2, 0xEC, 0x8E, 0x26, 0xC8]
    case 2 => [0x6E, 0xB1, 0x68, 0x67, 0x8D, 0xFD, 0xFF, 0x32, 0x4D, 0x65, 0x51, 0x12, 0x2D, 0x60, 0x1F, 0xDE]
    case 3 => [0x19, 0x6B, 0xBE, 0x46, 0x56, 0xED, 0xF0, 0x22, 0x48, 0xF2, 0x14, 0xD6, 0xF4, 0xE3, 0x95, 0xEB]
    case 4 => [0x61, 0xEA, 0x39, 0x16, 0x3C, 0xFA, 0x52, 0xAF, 0xD0, 0x05, 0x7F, 0xC7, 0x6F, 0x3E, 0x87, 0xF8]
    case 5 => [0xAE, 0xA9, 0xD3, 0x3A, 0x42, 0x9A, 0x6A, 0xC3, 0xF5, 0xAB, 0x11, 0xBB, 0xB6, 0xB3, 0x00, 0xF3]
    case 6 => [0x84, 0x38, 0x94, 0x4B, 0x80, 0x85, 0x9E, 0x64, 0x82, 0x7E, 0x5B, 0x0D, 0x99, 0xF6, 0xD8, 0xDB]
    case 7 => [0x77, 0x44, 0xDF, 0x4E, 0x53, 0x58, 0xC9, 0x63, 0x7A, 0x0B, 0x5C, 0x20, 0x88, 0x72, 0x34, 0x0A]
    case 8 => [0x8A, 0x1E, 0x30, 0xB7, 0x9C, 0x23, 0x3D, 0x1A, 0x8F, 0x4A, 0xFB, 0x5E, 0x81, 0xA2, 0x3F, 0x98]
    case 9 => [0xAA, 0x07, 0x73, 0xA7, 0xF1, 0xCE, 0x03, 0x96, 0x37, 0x3B, 0x97, 0xDC, 0x5A, 0x35, 0x17, 0x83]
    case 10 => [0x7D, 0xAD, 0x0F, 0xEE, 0x4F, 0x5F, 0x59, 0x10, 0x69, 0x89, 0xE1, 0xE0, 0xD9, 0xA0, 0x25, 0x7B]
    case 11 => [0x76, 0x49, 0x02, 0x9D, 0x2E, 0x74, 0x09, 0x91, 0x86, 0xE4, 0xCF, 0xD4, 0xCA, 0xD7, 0x45, 0xE5]
    case 12 => [0x1B, 0xBC, 0x43, 0x7C, 0xA8, 0xFC, 0x2A, 0x04, 0x1D, 0x6C, 0x15, 0xF7, 0x13, 0xCD, 0x27, 0xCB]
    case 13 => [0xE9, 0x28, 0xBA, 0x93, 0xC6, 0xC0, 0x9B, 0x21, 0xA4, 0xBF, 0x62, 0xCC, 0xA5, 0xB4, 0x75, 0x4C]
    case 14 => [0x8C, 0x24, 0xD2, 0xAC, 0x29, 0x36, 0x9F, 0x08, 0xB9, 0xE8, 0x71, 0xC4, 0xE7, 0x2F, 0x92, 0x78]
    case _ => [0x33, 0x41, 0x1C, 0x90, 0xFE, 0xDD, 0x5D, 0xBD, 0xC2, 0x8B, 0x70, 0x2B, 0x47, 0x6D, 0xB8, 0xD1]
  }

  lemma Rows0And1(x: byte)
    requires 0 <= x < 32
    ensures T(x) == Row(x / 16)[x % 16]
  {
  }

  lemma Rows2And3(x: byte)
    requires 32 <= x < 64
    ensures T(x) == Row(x / 16)[x % 16]
  {
  }

  lemma Rows4And5(x: byte)
    requires 64 <= x < 96
    ensures T(x) == Row(x / 16)[x % 16]
  {
  }

  lemma Rows6And7(x: byte)
    requires 96 <= x < 128
    ensures T(x) == Row(x / 16)[x % 16]
  {
  }

  lemma Rows8And9(x: byte)
    requires 128 <= x < 160
    ensures T(x) == Row(x / 16)[x % 16]
  {
  }

  lemma Rows10And11(x: byte)
    requires 160 <= x < 192
    ensures T(x) == Row(x / 16)[x % 16]
  {
  }

  lemma Rows12And13(x: byte)
    requires 192 <= x < 224
    ensures T(x) == Row(x / 16)[x % 16]
  {
  }

  lemma Rows14And15(x: byte)
    requires 224 <= x < 256
    ensures T(x) == Row(x / 16)[x % 16]
  {
  }

  /** Looking up by halving finds the entry written down. */
  lemma Looked(x: byte)
    ensures T(x) == Row(x / 16)[x % 16]
  {
    hide T, Row;
    if x < 32 {
      Rows0And1(x);
    } else if x < 64 {
      Rows2And3(x);
    } else if x < 96 {
      Rows4And5(x);
    } else if x < 128 {
      Rows6And7(x);
    } else if x < 160 {
      Rows8And9(x);
    } else if x < 192 {
      Rows10And11(x);
    } else if x < 224 {
      Rows12And13(x);
    } else {
      Rows14And15(x);
    }
  }
}
