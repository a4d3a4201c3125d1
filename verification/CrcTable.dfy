/**
 The lookup table of the page checksum, entry by entry as the program has it.
 The source labels it "IEEE polynomial"; four of its entries are not the values that
 polynomial gives (TableVersusPolynomial), so no checksum theorem here speaks of
 polynomial division. What error detection needs is weaker and is proved of the literal
 table: the most significant bytes of the 256 entries are pairwise distinct.
 */
module CrcTable {

  /** CRC32_TABLE[i]. Written as a decision tree on the index, so that
      a proof can evaluate it bit by bit. */
  function Entry(i: bv8): bv32 {
    if i < 128 then
      if i < 64 then
        if i < 32 then
          if i < 16 then
            if i < 8 then
              if i < 4 then
                if i < 2 then (if i < 1 then 0x00000000 else 0x77073096)
                else (if i < 3 then 0xee0e612c else 0x990951ba)
              else
                if i < 6 then (if i < 5 then 0x076dc419 else 0x706af48f)
                else (if i < 7 then 0xe963a535 else 0x9e6495a3)
            else
              if i < 12 then
                if i < 10 then (if i < 9 then 0x0edb8832 else 0x79dcb8a4)
                else (if i < 11 then 0xe0d5e91e else 0x97d2d988)
              else
                if i < 14 then (if i < 13 then 0x09b64c2b else 0x7eb17cbd)
                else (if i < 15 then 0xe7b82d07 else 0x90bf1d91)
          else
            if i < 24 then
              if i < 20 then
                if i < 18 then (if i < 17 then 0x1db71064 else 0x6ab020f2)
                else (if i < 19 then 0xf3b97148 else 0x84be41de)
              else
                if i < 22 then (if i < 21 then 0x1adad47d else 0x6ddde4eb)
                else (if i < 23 then 0xf4d4b551 else 0x83d385c7)
            else
              if i < 28 then
                if i < 26 then (if i < 25 then 0x136c9856 else 0x646ba8c0)
                else (if i < 27 then 0xfd62f97a else 0x8a65c9ec)
              else
                if i < 30 then (if i < 29 then 0x14015c4f else 0x63066cd9)
                else (if i < 31 then 0xfa0f3d63 else 0x8d080df5)
        else
          if i < 48 then
            if i < 40 then
              if i < 36 then
                if i < 34 then (if i < 33 then 0x3b6e20c8 else 0x4c69105e)
                else (if i < 35 then 0xd56041e4 else 0xa2677172)
              else
                if i < 38 then (if i < 37 then 0x3c03e4d1 else 0x4b04d447)
                else (if i < 39 then 0xd20d85fd else 0xa50ab56b)
            else
              if i < 44 then
                if i < 42 then (if i < 41 then 0x35b5a8fa else 0x42b2986c)
                else (if i < 43 then 0xdbbbc9d6 else 0xacbcf940)
              else
                if i < 46 then (if i < 45 then 0x32d86ce3 else 0x45df5c75)
                else (if i < 47 then 0xdcd60dcf else 0xabd13d59)
          else
            if i < 56 then
              if i < 52 then
                if i < 50 then (if i < 49 then 0x26d930ac else 0x51de003a)
                else (if i < 51 then 0xc8d75180 else 0xbfd06116)
              else
                if i < 54 then (if i < 53 then 0x21b4f4b5 else 0x56b3c423)
                else (if i < 55 then 0xcfba9599 else 0xb8bda50f)
            else
              if i < 60 then
                if i < 58 then (if i < 57 then 0x2802b89e else 0x5f058808)
                else (if i < 59 then 0xc60cd9b2 else 0xb10be924)
              else
                if i < 62 then (if i < 61 then 0x2f6f7c87 else 0x58684c11)
                else (if i < 63 then 0xc1611dab else 0xb6662d3d)
      else
        if i < 96 then
          if i < 80 then
            if i < 72 then
              if i < 68 then
                if i < 66 then (if i < 65 then 0x76dc4190 else 0x01db7106)
                else (if i < 67 then 0x98d220bc else 0xefd5102a)
              else
                if i < 70 then (if i < 69 then 0x71b18589 else 0x06b6b51f)
                else (if i < 71 then 0x9fbfe4a5 else 0xe8b8d433)
            else
              if i < 76 then
                if i < 74 then (if i < 73 then 0x7807c9a2 else 0x0f00f934)
                else (if i < 75 then 0x9609a88e else 0xe10e9818)
              else
                if i < 78 then (if i < 77 then 0x7f6a0dbb else 0x086d3d2d)
                else (if i < 79 then 0x91646c97 else 0xe6635c01)
          else
            if i < 88 then
              if i < 84 then
                if i < 82 then (if i < 81 then 0x6b6b51f4 else 0x1c6c6162)
                else (if i < 83 then 0x856530d8 else 0xf262004e)
              else
                if i < 86 then (if i < 85 then 0x6c0695ed else 0x1b01a57b)
                else (if i < 87 then 0x8208f4c1 else 0xf50fc457)
            else
              if i < 92 then
                if i < 90 then (if i < 89 then 0x65b0d9c6 else 0x12b7e950)
                else (if i < 91 then 0x8bbeb8ea else 0xfcb9887c)
              else
                if i < 94 then (if i < 93 then 0x62dd1ddf else 0x15da2d49)
                else (if i < 95 then 0x8cd37cf3 else 0xfbd44c65)
        else
          if i < 112 then
            if i < 104 then
              if i < 100 then
                if i < 98 then (if i < 97 then 0x4db26158 else 0x3ab551ce)
                else (if i < 99 then 0xa3bc0074 else 0xd4bb30e2)
              else
                if i < 102 then (if i < 101 then 0x4adfa541 else 0x3dd895d7)
                else (if i < 103 then 0xa4d1c46d else 0xd3d6f4fb)
            else
              if i < 108 then
                if i < 106 then (if i < 105 then 0x4369e96a else 0x346ed9fc)
                else (if i < 107 then 0xad678846 else 0xda60b8d0)
              else
                if i < 110 then (if i < 109 then 0x44042d73 else 0x33031de5)
                else (if i < 111 then 0xaa0a4c5f else 0xdd0d7cd9)
          else
            if i < 120 then
              if i < 116 then
                if i < 114 then (if i < 113 then 0x5005713c else 0x270241aa)
                else (if i < 115 then 0xbe0b1010 else 0xc90c2086)
              else
                if i < 118 then (if i < 117 then 0x5768b525 else 0x206f85b3)
                else (if i < 119 then 0xb966d409 else 0xce61e49f)
            else
              if i < 124 then
                if i < 122 then (if i < 121 then 0x5edef90e else 0x29d9c998)
                else (if i < 123 then 0xb0d09822 else 0xc7d7a8b4)
              else
                if i < 126 then (if i < 125 then 0x59b33d17 else 0x2eb40d81)
                else (if i < 127 then 0xb7bd5c3b else 0xc0ba6cad)
    else
      if i < 192 then
        if i < 160 then
          if i < 144 then
            if i < 136 then
              if i < 132 then
                if i < 130 then (if i < 129 then 0xedb88320 else 0x9abfb3b6)
                else (if i < 131 then 0x03b6e20c else 0x74b1d29a)
              else
                if i < 134 then (if i < 133 then 0xead54739 else 0x9dd277af)
                else (if i < 135 then 0x04db2615 else 0x73dc1683)
            else
              if i < 140 then
                if i < 138 then (if i < 137 then 0xe3630b12 else 0x94643b84)
                else (if i < 139 then 0x0d6d6a3e else 0x7a6a5aa8)
              else
                if i < 142 then (if i < 141 then 0xe40ecf0b else 0x9309ff9d)
                else (if i < 143 then 0x0a00ae27 else 0x7d079eb1)
          else
            if i < 152 then
              if i < 148 then
                if i < 146 then (if i < 145 then 0xf00f9344 else 0x8708a3d2)
                else (if i < 147 then 0x1e01f268 else 0x6906c2fe)
              else
                if i < 150 then (if i < 149 then 0xf762575d else 0x806567cb)
                else (if i < 151 then 0x196c3671 else 0x6e6b06e7)
            else
              if i < 156 then
                if i < 154 then (if i < 153 then 0xfed41b76 else 0x89d32be0)
                else (if i < 155 then 0x10da7a5a else 0x67dd4acc)
              else
                if i < 158 then (if i < 157 then 0xf9b9df6f else 0x8ebeeff9)
                else (if i < 159 then 0x17b7be43 else 0x60b08ed5)
        else
          if i < 176 then
            if i < 168 then
              if i < 164 then
                if i < 162 then (if i < 161 then 0xd6d6a3e8 else 0xa1d1937e)
                else (if i < 163 then 0x38d8c2c4 else 0x4fdff252)
              else
                if i < 166 then (if i < 165 then 0xd1bb67f1 else 0xa6bc5767)
                else (if i < 167 then 0x3fb506dd else 0x48b2364b)
            else
              if i < 172 then
                if i < 170 then (if i < 169 then 0xd80d2bda else 0xaf0a1b4c)
                else (if i < 171 then 0x36034af6 else 0x41047a60)
              else
                if i < 174 then (if i < 173 then 0xdf60efc3 else 0xa867df55)
                else (if i < 175 then 0x316e8eef else 0x4669be79)
          else
            if i < 184 then
              if i < 180 then
                if i < 178 then (if i < 177 then 0xcb61b38c else 0xbc66831a)
                else (if i < 179 then 0x256fd2a0 else 0x5268e236)
              else
                if i < 182 then (if i < 181 then 0xcc0c7795 else 0xbb0b4703)
                else (if i < 183 then 0x220216b9 else 0x5505262f)
            else
              if i < 188 then
                if i < 186 then (if i < 185 then 0xc5ba3bbe else 0xb2bd0b28)
                else (if i < 187 then 0x2bb45a92 else 0x5cb36a04)
              else
                if i < 190 then (if i < 189 then 0xc2d7ffa7 else 0xb5d0cf31)
                else (if i < 191 then 0x2cd99e8b else 0x5bdeae1d)
      else
        if i < 224 then
          if i < 208 then
            if i < 200 then
              if i < 196 then
                if i < 194 then (if i < 193 then 0x9b64c2b0 else 0xec63f226)
                else (if i < 195 then 0x756aa39c else 0x026d930a)
              else
                if i < 198 then (if i < 197 then 0x9c0906a9 else 0xeb0e363f)
                else (if i < 199 then 0x72076785 else 0x05005713)
            else
              if i < 204 then
                if i < 202 then (if i < 201 then 0x95bf4a82 else 0xe2b87a14)
                else (if i < 203 then 0x7bb12bae else 0x0cb61b38)
              else
                if i < 206 then (if i < 205 then 0x92d28e9b else 0xe5d5be0d)
                else (if i < 207 then 0x7cdcefb7 else 0x0bdbdf21)
          else
            if i < 216 then
              if i < 212 then
                if i < 210 then (if i < 209 then 0x86d3d2d4 else 0xf1d4e242)
                else (if i < 211 then 0x68ddb3f8 else 0x1fda836e)
              else
                if i < 214 then (if i < 213 then 0x81be16cd else 0xf6b9265b)
                else (if i < 215 then 0x6fb077e1 else 0x18b74777)
            else
              if i < 220 then
                if i < 218 then (if i < 217 then 0x88085ae6 else 0xff0f6a70)
                else (if i < 219 then 0x66063bca else 0x11010b5c)
              else
                if i < 222 then (if i < 221 then 0x8f659eff else 0xf862ae69)
                else (if i < 223 then 0x616bffd3 else 0x166ccf45)
        else
          if i < 240 then
            if i < 232 then
              if i < 228 then
                if i < 226 then (if i < 225 then 0xa00ae278 else 0xd70dd2ee)
                else (if i < 227 then 0x4e048354 else 0x3903b3c2)
              else
                if i < 230 then (if i < 229 then 0xa7672661 else 0xd06016f7)
                else (if i < 231 then 0x4969474d else 0x3e6e77db)
            else
              if i < 236 then
                if i < 234 then (if i < 233 then 0xaed16a4a else 0xd9d65adc)
                else (if i < 235 then 0x40df0b66 else 0x37d83bf0)
              else
                if i < 238 then (if i < 237 then 0xa9bcae53 else 0xdede86c5)
                else (if i < 239 then 0x47d7977f else 0x30d0a7e9)
          else
            if i < 248 then
              if i < 244 then
                if i < 242 then (if i < 241 then 0xbdbdf21c else 0xcabac28a)
                else (if i < 243 then 0x53b39330 else 0x24b4a3a6)
              else
                if i < 246 then (if i < 245 then 0xbad03605 else 0xcdd70693)
                else (if i < 247 then 0x54de5729 else 0x23d967bf)
            else
              if i < 252 then
                if i < 250 then (if i < 249 then 0xb3667a2e else 0xc4614ab8)
                else (if i < 251 then 0x5d681b02 else 0x2a6f2b94)
              else
                if i < 254 then (if i < 253 then 0xb40bbe37 else 0xc30c8ea1)
                else (if i < 255 then 0x5a05df1b else 0x2d02ef8d)
  }

  /** The index of the entry whose most significant byte is `top`. */
  function IndexOfTop(top: bv8): bv8 {
    if top < 128 then
      if top < 64 then
        if top < 32 then
          if top < 16 then
            if top < 8 then
              if top < 4 then
                if top < 2 then (if top < 1 then 0 else 65) else (if top < 3 then 195 else 130)
              else
                if top < 6 then (if top < 5 then 134 else 199) else (if top < 7 then 69 else 4)
            else
              if top < 12 then
                if top < 10 then (if top < 9 then 77 else 12) else (if top < 11 then 142 else 207)
              else
                if top < 14 then (if top < 13 then 203 else 138) else (if top < 15 then 8 else 73)
          else
            if top < 24 then
              if top < 20 then
                if top < 18 then (if top < 17 then 154 else 219) else (if top < 19 then 89 else 24)
              else
                if top < 22 then (if top < 21 then 28 else 93) else (if top < 23 then 223 else 158)
            else
              if top < 28 then
                if top < 26 then (if top < 25 then 215 else 150) else (if top < 27 then 20 else 85)
              else
                if top < 30 then (if top < 29 then 81 else 16) else (if top < 31 then 146 else 211)
        else
          if top < 48 then
            if top < 40 then
              if top < 36 then
                if top < 34 then (if top < 33 then 117 else 52) else (if top < 35 then 182 else 247)
              else
                if top < 38 then (if top < 37 then 243 else 178) else (if top < 39 then 48 else 113)
            else
              if top < 44 then
                if top < 42 then (if top < 41 then 56 else 121) else (if top < 43 then 251 else 186)
              else
                if top < 46 then (if top < 45 then 190 else 255) else (if top < 47 then 125 else 60)
          else
            if top < 56 then
              if top < 52 then
                if top < 50 then (if top < 49 then 239 else 174) else (if top < 51 then 44 else 109)
              else
                if top < 54 then (if top < 53 then 105 else 40) else (if top < 55 then 170 else 235)
            else
              if top < 60 then
                if top < 58 then (if top < 57 then 162 else 227) else (if top < 59 then 97 else 32)
              else
                if top < 62 then (if top < 61 then 36 else 101) else (if top < 63 then 231 else 166)
      else
        if top < 96 then
          if top < 80 then
            if top < 72 then
              if top < 68 then
                if top < 66 then (if top < 65 then 234 else 171) else (if top < 67 then 41 else 104)
              else
                if top < 70 then (if top < 69 then 108 else 45) else (if top < 71 then 175 else 238)
            else
              if top < 76 then
                if top < 74 then (if top < 73 then 167 else 230) else (if top < 75 then 100 else 37)
              else
                if top < 78 then (if top < 77 then 33 else 96) else (if top < 79 then 226 else 163)
          else
            if top < 88 then
              if top < 84 then
                if top < 82 then (if top < 81 then 112 else 49) else (if top < 83 then 179 else 242)
              else
                if top < 86 then (if top < 85 then 246 else 183) else (if top < 87 then 53 else 116)
            else
              if top < 92 then
                if top < 90 then (if top < 89 then 61 else 124) else (if top < 91 then 254 else 191)
              else
                if top < 94 then (if top < 93 then 187 else 250) else (if top < 95 then 120 else 57)
        else
          if top < 112 then
            if top < 104 then
              if top < 100 then
                if top < 98 then (if top < 97 then 159 else 222) else (if top < 99 then 92 else 29)
              else
                if top < 102 then (if top < 101 then 25 else 88) else (if top < 103 then 218 else 155)
            else
              if top < 108 then
                if top < 106 then (if top < 105 then 210 else 147) else (if top < 107 then 17 else 80)
              else
                if top < 110 then (if top < 109 then 84 else 21) else (if top < 111 then 151 else 214)
          else
            if top < 120 then
              if top < 116 then
                if top < 114 then (if top < 113 then 5 else 68) else (if top < 115 then 198 else 135)
              else
                if top < 118 then (if top < 117 then 131 else 194) else (if top < 119 then 64 else 1)
            else
              if top < 124 then
                if top < 122 then (if top < 121 then 72 else 9) else (if top < 123 then 139 else 202)
              else
                if top < 126 then (if top < 125 then 206 else 143) else (if top < 127 then 13 else 76)
    else
      if top < 192 then
        if top < 160 then
          if top < 144 then
            if top < 136 then
              if top < 132 then
                if top < 130 then (if top < 129 then 149 else 212) else (if top < 131 then 86 else 23)
              else
                if top < 134 then (if top < 133 then 19 else 82) else (if top < 135 then 208 else 145)
            else
              if top < 140 then
                if top < 138 then (if top < 137 then 216 else 153) else (if top < 139 then 27 else 90)
              else
                if top < 142 then (if top < 141 then 94 else 31) else (if top < 143 then 157 else 220)
          else
            if top < 152 then
              if top < 148 then
                if top < 146 then (if top < 145 then 15 else 78) else (if top < 147 then 204 else 141)
              else
                if top < 150 then (if top < 149 then 137 else 200) else (if top < 151 then 74 else 11)
            else
              if top < 156 then
                if top < 154 then (if top < 153 then 66 else 3) else (if top < 155 then 129 else 192)
              else
                if top < 158 then (if top < 157 then 196 else 133) else (if top < 159 then 7 else 70)
        else
          if top < 176 then
            if top < 168 then
              if top < 164 then
                if top < 162 then (if top < 161 then 224 else 161) else (if top < 163 then 35 else 98)
              else
                if top < 166 then (if top < 165 then 102 else 39) else (if top < 167 then 165 else 228)
            else
              if top < 172 then
                if top < 170 then (if top < 169 then 173 else 236) else (if top < 171 then 110 else 47)
              else
                if top < 174 then (if top < 173 then 43 else 106) else (if top < 175 then 232 else 169)
          else
            if top < 184 then
              if top < 180 then
                if top < 178 then (if top < 177 then 122 else 59) else (if top < 179 then 185 else 248)
              else
                if top < 182 then (if top < 181 then 252 else 189) else (if top < 183 then 63 else 126)
            else
              if top < 188 then
                if top < 186 then (if top < 185 then 55 else 118) else (if top < 187 then 244 else 181)
              else
                if top < 190 then (if top < 189 then 177 else 240) else (if top < 191 then 114 else 51)
      else
        if top < 224 then
          if top < 208 then
            if top < 200 then
              if top < 196 then
                if top < 194 then (if top < 193 then 127 else 62) else (if top < 195 then 188 else 253)
              else
                if top < 198 then (if top < 197 then 249 else 184) else (if top < 199 then 58 else 123)
            else
              if top < 204 then
                if top < 202 then (if top < 201 then 50 else 115) else (if top < 203 then 241 else 176)
              else
                if top < 206 then (if top < 205 then 180 else 245) else (if top < 207 then 119 else 54)
          else
            if top < 216 then
              if top < 212 then
                if top < 210 then (if top < 209 then 229 else 164) else (if top < 211 then 38 else 103)
              else
                if top < 214 then (if top < 213 then 99 else 34) else (if top < 215 then 160 else 225)
            else
              if top < 220 then
                if top < 218 then (if top < 217 then 168 else 233) else (if top < 219 then 107 else 42)
              else
                if top < 222 then (if top < 221 then 46 else 111) else (if top < 223 then 237 else 172)
        else
          if top < 240 then
            if top < 232 then
              if top < 228 then
                if top < 226 then (if top < 225 then 10 else 75) else (if top < 227 then 201 else 136)
              else
                if top < 230 then (if top < 229 then 140 else 205) else (if top < 231 then 79 else 14)
            else
              if top < 236 then
                if top < 234 then (if top < 233 then 71 else 6) else (if top < 235 then 132 else 197)
              else
                if top < 238 then (if top < 237 then 193 else 128) else (if top < 239 then 2 else 67)
          else
            if top < 248 then
              if top < 244 then
                if top < 242 then (if top < 241 then 144 else 209) else (if top < 243 then 83 else 18)
              else
                if top < 246 then (if top < 245 then 22 else 87) else (if top < 247 then 213 else 148)
            else
              if top < 252 then
                if top < 250 then (if top < 249 then 221 else 156) else (if top < 251 then 30 else 95)
              else
                if top < 254 then (if top < 253 then 91 else 26) else (if top < 255 then 152 else 217)
  }

  /** No two entries share their most significant byte: it determines the index. */
  lemma TopDeterminesIndex(i: bv8)
    ensures IndexOfTop((Entry(i) >> 24) as bv8) == i
  {
  }

  /** One bit of the division by the reflected IEEE 802.3 polynomial. */
  function Shift(x: bv32): bv32 {
    (x >> 1) ^ (0xEDB88320 & (0 - (x & 1)))
  }

  /** The entry that the polynomial named in the source gives for `i`. */
  function PolynomialEntry(i: bv8): bv32 {
    Shift(Shift(Shift(Shift(Shift(Shift(Shift(Shift(i as bv32))))))))
  }

  /** The literal table is that of the polynomial at exactly 252 of its 256 indices. */
  lemma TableVersusPolynomial(i: bv8)
    ensures Entry(i) == PolynomialEntry(i) <==> i != 111 && i != 237 && i != 238 && i != 239
    ensures Entry(111) == 0xdd0d7cd9 && Entry(237) == 0xdede86c5
    ensures Entry(238) == 0x47d7977f && Entry(239) == 0x30d0a7e9
  {
  }
}
